/** The customer profile view: one customer with its addresses, edited in
    place. Address edits are rewrites of the address list (`map`, `filter`
    and appending); the write calls (POST, PUT, DELETE) are recorded as
    requests, the initial GET appears only through its reply, and the
    replies and the confirmation dialogs' answers are parameters. */
module CustomerProfile {
  import opened Records
  import opened Arrays
  import opened Text

  /** The "Add New Address" inputs. */
  datatype AddressDraft = AddressDraft(line1: string, city: string, state: string, pin: string)

  const EmptyDraft := AddressDraft("", "", "", "")

  /** The editable fields of an address and of the draft (the address
      line plus the three fields the list view also filters on). */
  datatype AddressField = Line1 | City | State | Pin

  /** The customer fields editable in edit mode. */
  datatype CustomerField = FirstName | LastName | Phone

  /** The calls made to the backend. */
  datatype Request =
    | PutCustomer(customerId: Id, customer: Customer)
    | DeleteCustomer(customerId: Id)
    | PostAddress(customerId: Id, draft: AddressDraft)
    | PutAddress(addressId: Id, address: Address)
    | DeleteAddress(addressId: Id)

  function DraftValue(d: AddressDraft, field: AddressField): string
  {
    match field
    case Line1 => d.line1
    case City => d.city
    case State => d.state
    case Pin => d.pin
  }

  /** `setNewAddress({ ...newAddress, [field]: value })`. */
  function SetDraft(d: AddressDraft, field: AddressField, value: string): (r: AddressDraft)
    ensures DraftValue(r, field) == value
    ensures forall g :: g != field ==> DraftValue(r, g) == DraftValue(d, g)
  {
    match field
    case Line1 => d.(line1 := value)
    case City => d.(city := value)
    case State => d.(state := value)
    case Pin => d.(pin := value)
  }

  function AddressValue(a: Address, field: AddressField): string
  {
    match field
    case Line1 => a.line1
    case City => a.city
    case State => a.state
    case Pin => a.pin
  }

  /** `{ ...a, [field]: value }`: one field changes; the id, the marker and
      the other fields do not. */
  function SetAddressField(a: Address, field: AddressField, value: string): (r: Address)
    ensures AddressValue(r, field) == value
    ensures forall g :: g != field ==> AddressValue(r, g) == AddressValue(a, g)
    ensures r.id == a.id && r.onlyOne == a.onlyOne
  {
    match field
    case Line1 => a.(line1 := value)
    case City => a.(city := value)
    case State => a.(state := value)
    case Pin => a.(pin := value)
  }

  function CustomerValue(c: Customer, field: CustomerField): string
  {
    match field
    case FirstName => c.firstName
    case LastName => c.lastName
    case Phone => c.phone
  }

  /** `setCustomer({ ...customer, [field]: value })`: the named field changes
      and every other part of the record, addresses included, is kept. */
  function SetCustomerField(c: Customer, field: CustomerField, value: string): (r: Customer)
    ensures CustomerValue(r, field) == value
    ensures forall g :: g != field ==> CustomerValue(r, g) == CustomerValue(c, g)
    ensures r.id == c.id && r.address == c.address && r.city == c.city && r.state == c.state
    ensures r.pin == c.pin && r.addresses == c.addresses
  {
    match field
    case FirstName => c.(firstName := value)
    case LastName => c.(lastName := value)
    case Phone => c.(phone := value)
  }

  /** The check of `handleAddAddress`: line, city and state filled in and a
      pin of exactly six ASCII digits (`/^\d{6}$/`). */
  function AcceptsDraft(d: AddressDraft): (ok: bool)
    ensures ok <==> d.line1 != "" && d.city != "" && d.state != "" && DigitString(d.pin, 6)
  {
    MatchesDigitsIff(d.pin, 6);
    !(d.line1 == "" || d.city == "" || d.state == "" || !MatchesDigits(d.pin, 6))
  }

  /** No two addresses share an id. */
  predicate UniqueIds(s: seq<Address>)
  {
    forall i, j :: 0 <= i < j < |s| ==> s[i].id != s[j].id
  }

  /** At most one address carries the marker. */
  predicate AtMostOneFlagged(s: seq<Address>)
  {
    forall i, j :: 0 <= i < |s| && 0 <= j < |s| && s[i].onlyOne && s[j].onlyOne ==> i == j
  }

  function MarkBy(id: Id): Address -> Address
  {
    (a: Address) => a.(onlyOne := a.id == id)
  }

  /** `markSingleAddress`: the marker becomes true exactly on the addresses
      with the chosen id; length, order and every other field are kept.
      With unique ids at most one address is marked, and none when the id
      is absent. */
  function MarkSingle(s: seq<Address>, id: Id): (r: seq<Address>)
    ensures |r| == |s|
    ensures forall i :: 0 <= i < |s| ==> r[i].onlyOne == (s[i].id == id)
    ensures forall i :: 0 <= i < |s| ==> r[i] == s[i].(onlyOne := r[i].onlyOne)
    ensures UniqueIds(s) ==> AtMostOneFlagged(r)
    ensures (forall i :: 0 <= i < |s| ==> s[i].id != id) ==> forall i :: 0 <= i < |r| ==> !r[i].onlyOne
  {
    Map(MarkBy(id), s)
  }

  /** Marking one address after another leaves only the later one marked:
      the earlier mark has no effect on the result. */
  lemma MarkSingleLastWins(s: seq<Address>, a: Id, b: Id)
    ensures MarkSingle(MarkSingle(s, a), b) == MarkSingle(s, b)
  {
    var m, l, r := MarkSingle(s, a), MarkSingle(MarkSingle(s, a), b), MarkSingle(s, b);
    forall i | 0 <= i < |s| ensures l[i] == r[i] {
      assert l[i] == m[i].(onlyOne := l[i].onlyOne);
      assert m[i] == s[i].(onlyOne := m[i].onlyOne);
    }
  }

  /** With unique ids, marking the address at position i marks it and no
      other address. */
  lemma MarkSingleExactlyOne(s: seq<Address>, i: nat)
    requires UniqueIds(s) && i < |s|
    ensures MarkSingle(s, s[i].id)[i].onlyOne
    ensures forall j :: 0 <= j < |s| && j != i ==> !MarkSingle(s, s[i].id)[j].onlyOne
  {
  }

  function ReplaceWith(addr: Address): Address -> Address
  {
    (a: Address) => if a.id == addr.id then addr else a
  }

  /** `handleUpdateAddress`'s local update: every address with the saved
      address's id is replaced by it; the others, the length and every
      position's id are kept. */
  function ReplaceById(s: seq<Address>, addr: Address): (r: seq<Address>)
    ensures |r| == |s|
    ensures forall i :: 0 <= i < |s| ==> r[i] == (if s[i].id == addr.id then addr else s[i])
    ensures forall i :: 0 <= i < |s| ==> r[i].id == s[i].id
    ensures UniqueIds(s) ==> UniqueIds(r)
  {
    Map(ReplaceWith(addr), s)
  }

  /** Saving an address exactly as it is in the list leaves the list
      unchanged, when ids are unique. */
  lemma SaveCurrentKeepsList(s: seq<Address>, i: nat)
    requires UniqueIds(s) && i < |s|
    ensures ReplaceById(s, s[i]) == s
  {
    var r := ReplaceById(s, s[i]);
    forall j | 0 <= j < |s| ensures r[j] == s[j] {
      if j != i {
        assert s[j].id != s[i].id;
      }
    }
  }

  function KeepOther(id: Id): Address -> bool
  {
    (a: Address) => a.id != id
  }

  /** `handleDeleteAddress`'s local update: drop the addresses with that id. */
  function RemoveById(s: seq<Address>, id: Id): (r: seq<Address>)
    ensures forall a :: a in r <==> a in s && a.id != id
  {
    Filter(KeepOther(id), s)
  }

  /** Removing keeps, in order, exactly the positions whose id differs. */
  lemma RemoveKeepsOthersInOrder(s: seq<Address>, id: Id)
    ensures exists idx :: Embedding(idx, RemoveById(s, id), s)
                       && forall i :: 0 <= i < |s| ==> (i in idx <==> s[i].id != id)
  {
    var idx := FilterIndices(KeepOther(id), s);
    assert RemoveById(s, id) == Filter(KeepOther(id), s);
    assert forall i :: 0 <= i < |s| ==> (i in idx <==> s[i].id != id);
    assert Embedding(idx, RemoveById(s, id), s);
  }

  /** Removing an id that no address has changes nothing. */
  lemma RemoveAbsentId(s: seq<Address>, id: Id)
    requires forall a :: a in s ==> a.id != id
    ensures RemoveById(s, id) == s
  {
    FilterAll(KeepOther(id), s);
  }

  /** One step of the filter behind RemoveById. */
  lemma RemoveStep(s: seq<Address>, id: Id)
    requires s != []
    ensures RemoveById(s, id) == if s[0].id != id then [s[0]] + RemoveById(s[1..], id)
                                 else RemoveById(s[1..], id)
  {
    assert RemoveById(s, id) == Filter(KeepOther(id), s);
    assert RemoveById(s[1..], id) == Filter(KeepOther(id), s[1..]);
  }

  lemma UniqueTail(s: seq<Address>)
    requires UniqueIds(s) && s != []
    ensures UniqueIds(s[1..])
    ensures forall a :: a in s[1..] ==> a.id != s[0].id
  {
    forall a | a in s[1..] ensures a.id != s[0].id {
      var j :| 0 <= j < |s[1..]| && s[1..][j] == a;
      assert s[j + 1] == a;
    }
  }

  /** With unique ids, deleting the address at position i removes exactly
      that entry. */
  lemma {:induction false} RemoveUnique(s: seq<Address>, i: nat)
    requires UniqueIds(s) && i < |s|
    ensures RemoveById(s, s[i].id) == s[..i] + s[i + 1..]
    decreases |s|, 1
  {
    var id := s[i].id;
    UniqueTail(s);
    if i == 0 {
      RemoveStep(s, id);
      RemoveAbsentId(s[1..], id);
    } else {
      RemoveUniqueLater(s, i);
    }
  }

  /** The case of RemoveUnique where the deleted entry is not the head. */
  lemma {:induction false} RemoveUniqueLater(s: seq<Address>, i: nat)
    requires UniqueIds(s) && 0 < i < |s|
    ensures RemoveById(s, s[i].id) == s[..i] + s[i + 1..]
    decreases |s|, 0
  {
    var id, tail := s[i].id, s[1..];
    assert s[0].id != id;
    RemoveStep(s, id);
    UniqueTail(s);
    SpliceTail(s, i);
    RemoveUnique(tail, i - 1);
  }


  /** Deleting keeps ids unique and keeps at most one address marked. */
  lemma RemovePreserves(s: seq<Address>, id: Id)
    ensures UniqueIds(s) ==> UniqueIds(RemoveById(s, id))
    ensures AtMostOneFlagged(s) ==> AtMostOneFlagged(RemoveById(s, id))
  {
    RemoveKeepsOthersInOrder(s, id);
    var r := RemoveById(s, id);
    var idx :| Embedding(idx, r, s) && forall i :: 0 <= i < |s| ==> (i in idx <==> s[i].id != id);
    forall j, k | 0 <= j < |r| && 0 <= k < |r| && j != k ensures idx[j] != idx[k] {
      if j < k { assert idx[j] < idx[k]; } else { assert idx[k] < idx[j]; }
    }
  }

  function EditWith(id: Id, field: AddressField, value: string): Address -> Address
  {
    (a: Address) => if a.id == id then SetAddressField(a, field, value) else a
  }

  /** A keystroke in one field of the address with id `id`: that field of
      that address takes the value; every other address, every other field,
      every id and every marker is kept. */
  function EditAddress(s: seq<Address>, id: Id, field: AddressField, value: string): (r: seq<Address>)
    ensures |r| == |s|
    ensures forall i :: 0 <= i < |s| && s[i].id == id ==> AddressValue(r[i], field) == value
    ensures forall i, g :: 0 <= i < |s| && (s[i].id != id || g != field) ==> AddressValue(r[i], g) == AddressValue(s[i], g)
    ensures forall i :: 0 <= i < |s| ==> r[i].id == s[i].id && r[i].onlyOne == s[i].onlyOne
    ensures forall i :: 0 <= i < |s| && s[i].id != id ==> r[i] == s[i]
  {
    Map(EditWith(id, field, value), s)
  }

  /** Editing keeps ids unique and keeps at most one address marked. */
  lemma EditPreserves(s: seq<Address>, id: Id, field: AddressField, value: string)
    ensures UniqueIds(s) ==> UniqueIds(EditAddress(s, id, field, value))
    ensures AtMostOneFlagged(s) ==> AtMostOneFlagged(EditAddress(s, id, field, value))
  {
  }

  /** The profile view's state and the requests it has issued. */
  class ProfileView {
    /** The `:id` route parameter. */
    const customerId: Id
    var customer: Option<Customer>
    var editing: bool
    var addresses: seq<Address>
    var newAddress: AddressDraft
    /** Backend calls issued so far, oldest first. */
    var requests: seq<Request>

    constructor (customerId: Id)
      ensures this.customerId == customerId
      ensures customer == None && !editing && addresses == [] && newAddress == EmptyDraft && requests == []
    {
      this.customerId := customerId;
      customer, editing, addresses, newAddress, requests := None, false, [], EmptyDraft, [];
    }

    /** The initial fetch resolved with `data`. */
    method Loaded(data: Customer)
      modifies this
      ensures customer == Some(data) && addresses == AddressesOf(data)
      ensures editing == old(editing) && newAddress == old(newAddress) && requests == old(requests)
    {
      customer := Some(data);
      addresses := AddressesOf(data);
    }

    /** The "Edit" button. */
    method StartEditing()
      modifies this
      ensures editing
      ensures customer == old(customer) && addresses == old(addresses)
      ensures newAddress == old(newAddress) && requests == old(requests)
    {
      editing := true;
    }

    /** The "Cancel" button: leaves edit mode, keeping any local edits. */
    method CancelEditing()
      modifies this
      ensures !editing
      ensures customer == old(customer) && addresses == old(addresses)
      ensures newAddress == old(newAddress) && requests == old(requests)
    {
      editing := false;
    }

    /** A keystroke in a customer input; the inputs exist only once the
        customer has loaded. */
    method EditCustomer(field: CustomerField, value: string)
      requires customer.Some?
      modifies this
      ensures customer == Some(SetCustomerField(old(customer).value, field, value))
      ensures editing == old(editing) && addresses == old(addresses)
      ensures newAddress == old(newAddress) && requests == old(requests)
    {
      customer := Some(SetCustomerField(customer.value, field, value));
    }

    /** `handleUpdate`: sends the whole local customer record and leaves
        edit mode. */
    method HandleUpdate()
      requires customer.Some?
      modifies this
      ensures customer == old(customer) && addresses == old(addresses) && newAddress == old(newAddress)
      ensures !editing
      ensures requests == old(requests) + [PutCustomer(customerId, old(customer).value)]
    {
      requests := requests + [PutCustomer(customerId, customer.value)];
      editing := false;
    }

    /** `handleDelete`; `confirmed` is the answer to the confirmation dialog. */
    method HandleDelete(confirmed: bool)
      modifies this
      ensures requests == old(requests) + (if confirmed then [DeleteCustomer(customerId)] else [])
      ensures customer == old(customer) && editing == old(editing)
      ensures addresses == old(addresses) && newAddress == old(newAddress)
    {
      if confirmed {
        requests := requests + [DeleteCustomer(customerId)];
      }
    }

    /** A keystroke in one of the "Add New Address" inputs. */
    method EditNewAddress(field: AddressField, value: string)
      modifies this
      ensures newAddress == SetDraft(old(newAddress), field, value)
      ensures customer == old(customer) && editing == old(editing)
      ensures addresses == old(addresses) && requests == old(requests)
    {
      newAddress := SetDraft(newAddress, field, value);
    }

    /** `handleAddAddress`; `created` is the address the server returns for
        the POST. A rejected draft changes nothing and sends nothing; an
        accepted one is posted, the reply is appended and the draft is
        cleared. */
    method HandleAddAddress(created: Address) returns (accepted: bool)
      modifies this
      ensures accepted <==> AcceptsDraft(old(newAddress))
      ensures !accepted ==> addresses == old(addresses) && newAddress == old(newAddress) && requests == old(requests)
      ensures accepted ==> addresses == old(addresses) + [created] && newAddress == EmptyDraft
      ensures accepted ==> requests == old(requests) + [PostAddress(customerId, old(newAddress))]
      ensures customer == old(customer) && editing == old(editing)
    {
      accepted := AcceptsDraft(newAddress);
      if !accepted {
        return;
      }
      requests := requests + [PostAddress(customerId, newAddress)];
      addresses := addresses + [created];
      newAddress := EmptyDraft;
    }

    /** `handleUpdateAddress(addr)`: sends the address and puts it in place
        of every local address with its id. */
    method HandleUpdateAddress(addr: Address)
      modifies this
      ensures requests == old(requests) + [PutAddress(addr.id, addr)]
      ensures addresses == ReplaceById(old(addresses), addr)
      ensures customer == old(customer) && editing == old(editing) && newAddress == old(newAddress)
    {
      requests := requests + [PutAddress(addr.id, addr)];
      addresses := ReplaceById(addresses, addr);
    }

    /** `handleDeleteAddress(addrId)`; `confirmed` is the dialog's answer.
        Unconfirmed, nothing changes. */
    method HandleDeleteAddress(addrId: Id, confirmed: bool)
      modifies this
      ensures confirmed ==> requests == old(requests) + [DeleteAddress(addrId)]
      ensures confirmed ==> addresses == RemoveById(old(addresses), addrId)
      ensures !confirmed ==> requests == old(requests) && addresses == old(addresses)
      ensures customer == old(customer) && editing == old(editing) && newAddress == old(newAddress)
    {
      if confirmed {
        requests := requests + [DeleteAddress(addrId)];
        addresses := RemoveById(addresses, addrId);
      }
    }

    /** `markSingleAddress(addrId)`: local only, nothing is sent. */
    method MarkSingleAddress(addrId: Id)
      modifies this
      ensures addresses == MarkSingle(old(addresses), addrId)
      ensures UniqueIds(old(addresses)) ==> AtMostOneFlagged(addresses)
      ensures customer == old(customer) && editing == old(editing)
      ensures newAddress == old(newAddress) && requests == old(requests)
    {
      addresses := MarkSingle(addresses, addrId);
    }

    /** A keystroke in one field of a listed address: local only. */
    method EditAddressField(addrId: Id, field: AddressField, value: string)
      modifies this
      ensures addresses == EditAddress(old(addresses), addrId, field, value)
      ensures customer == old(customer) && editing == old(editing)
      ensures newAddress == old(newAddress) && requests == old(requests)
    {
      addresses := EditAddress(addresses, addrId, field, value);
    }
  }
}
