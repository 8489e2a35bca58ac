/** The customer list view: a fetched page of customers is narrowed by
    three substring filters (city, state, pin) that look at the customer's
    own field and at the same field of each of its addresses; "Previous"
    and "Next" move the page number. */
module CustomerList {
  import opened Records
  import opened Arrays
  import opened Text

  datatype Filters = Filters(city: string, state: string, pin: string)

  /** The three filter inputs. Only these three fields are searched, so the
      key set is narrower than the form's or the address editor's fields. */
  datatype Key = City | State | Pin

  const NoFilters := Filters("", "", "")

  function FilterValue(f: Filters, k: Key): string
  {
    match k
    case City => f.city
    case State => f.state
    case Pin => f.pin
  }

  /** `setFilters({ ...filters, [k]: v })`: one filter input changes. */
  function WithFilter(f: Filters, k: Key, v: string): (r: Filters)
    ensures FilterValue(r, k) == v
    ensures forall j :: j != k ==> FilterValue(r, j) == FilterValue(f, j)
  {
    match k
    case City => f.(city := v)
    case State => f.(state := v)
    case Pin => f.(pin := v)
  }

  /** The customer's own field for key k (`c.city`, `c.state`, `c.pin`). */
  function OwnField(c: Customer, k: Key): Option<string>
  {
    match k
    case City => c.city
    case State => c.state
    case Pin => c.pin
  }

  /** The same field of an address (`a.city`, `a.state`, `a.pin`). */
  function AddressFieldOf(a: Address, k: Key): string
  {
    match k
    case City => a.city
    case State => a.state
    case Pin => a.pin
  }

  /** City and state are compared after lower-casing both sides; the pin
      is compared as it is. */
  function Fold(k: Key, s: string): (r: string)
    ensures |r| == |s|
    ensures k == Pin ==> r == s
    ensures k != Pin ==> forall i :: 0 <= i < |s| ==> r[i] == LowerChar(s[i])
  {
    if k == Pin then s else Lower(s)
  }

  /** `matchesCity`, `matchesState`, `matchesPin`: an empty filter accepts;
      otherwise the customer's own field, when present, or some address's
      field, when the customer has addresses, must contain the filter. */
  predicate Matches(c: Customer, f: Filters, k: Key)
  {
    var q := FilterValue(f, k);
    if q == "" then true
    else
      (match OwnField(c, k)
       case Some(v) => Contains(Fold(k, v), Fold(k, q))
       case None => false)
      ||
      (match c.addresses
       case Some(s) => exists a :: a in s && Contains(Fold(k, AddressFieldOf(a, k)), Fold(k, q))
       case None => false)
  }

  /** The row predicate: all three matches hold. */
  predicate Keep(c: Customer, f: Filters)
  {
    Matches(c, f, City) && Matches(c, f, State) && Matches(c, f, Pin)
  }

  /** The callback handed to `data.filter`. */
  function KeepBy(f: Filters): Customer -> bool
  {
    c => Keep(c, f)
  }

  /** `data.filter(...)`: the rows of the fetched page that are shown. */
  function Visible(data: seq<Customer>, f: Filters): seq<Customer>
  {
    Filter(KeepBy(f), data)
  }

  /** Reference reading of one filter: empty, or a substring (after
      folding) of the customer's field or of some address's field. */
  ghost predicate Satisfies(c: Customer, f: Filters, k: Key)
  {
    var q := Fold(k, FilterValue(f, k));
    || FilterValue(f, k) == ""
    || (OwnField(c, k).Some? && Occurs(q, Fold(k, OwnField(c, k).value)))
    || (exists a :: a in AddressesOf(c) && Occurs(q, Fold(k, AddressFieldOf(a, k))))
  }

  lemma MatchesIffSatisfies(c: Customer, f: Filters, k: Key)
    ensures Matches(c, f, k) <==> Satisfies(c, f, k)
  {
    var q := Fold(k, FilterValue(f, k));
    if OwnField(c, k).Some? {
      ContainsIffOccurs(Fold(k, OwnField(c, k).value), q);
    }
    forall a | a in AddressesOf(c)
      ensures Contains(Fold(k, AddressFieldOf(a, k)), q) <==> Occurs(q, Fold(k, AddressFieldOf(a, k)))
    {
      ContainsIffOccurs(Fold(k, AddressFieldOf(a, k)), q);
    }
  }

  /** A customer is kept iff every non-empty filter occurs, case-insensitively
      for city and state and exactly for the pin, in the customer's own field
      or in the same field of one of its addresses. */
  lemma KeepIff(c: Customer, f: Filters)
    ensures Keep(c, f) <==> forall k :: Satisfies(c, f, k)
  {
    MatchesIffSatisfies(c, f, City);
    MatchesIffSatisfies(c, f, State);
    MatchesIffSatisfies(c, f, Pin);
  }

  /** The visible rows are exactly the fetched rows that are kept, in the
      order in which they were fetched. */
  lemma VisibleSelects(data: seq<Customer>, f: Filters)
    ensures exists idx :: Embedding(idx, Visible(data, f), data)
                       && forall i :: 0 <= i < |data| ==> (i in idx <==> Keep(data[i], f))
  {
    var idx := FilterIndices(KeepBy(f), data);
    assert Visible(data, f) == Filter(KeepBy(f), data);
    assert forall i :: 0 <= i < |data| ==> (i in idx <==> Keep(data[i], f));
    assert Embedding(idx, Visible(data, f), data);
  }

  /** With every filter empty the fetched page is shown unchanged. */
  lemma NoFiltersShowAll(data: seq<Customer>)
    ensures Visible(data, NoFilters) == data
  {
    FilterAll(KeepBy(NoFilters), data);
  }

  /** A customer with neither the field nor any address is excluded by any
      non-empty filter on that field. */
  lemma MissingFieldExcludes(c: Customer, f: Filters, k: Key)
    requires OwnField(c, k).None? && AddressesOf(c) == []
    requires FilterValue(f, k) != ""
    ensures !Keep(c, f)
  {
    assert !Matches(c, f, k);
  }

  /** g is at least as strict as f: every non-empty filter of f is, after
      folding, a substring of g's filter for the same key. */
  predicate Narrows(g: Filters, f: Filters)
  {
    forall k :: FilterValue(f, k) == ""
             || (FilterValue(g, k) != "" && Contains(Fold(k, FilterValue(g, k)), Fold(k, FilterValue(f, k))))
  }

  lemma NarrowsMatches(c: Customer, g: Filters, f: Filters, k: Key)
    requires Narrows(g, f) && Matches(c, g, k)
    ensures Matches(c, f, k)
  {
    MatchesIffSatisfies(c, g, k);
    MatchesIffSatisfies(c, f, k);
    var p, q := Fold(k, FilterValue(g, k)), Fold(k, FilterValue(f, k));
    if FilterValue(f, k) != "" {
      ContainsIffOccurs(p, q);
      if OwnField(c, k).Some? && Occurs(p, Fold(k, OwnField(c, k).value)) {
        OccursTransitive(q, p, Fold(k, OwnField(c, k).value));
      } else {
        var a :| a in AddressesOf(c) && Occurs(p, Fold(k, AddressFieldOf(a, k)));
        OccursTransitive(q, p, Fold(k, AddressFieldOf(a, k)));
      }
    }
  }

  /** A stricter filter set keeps no customer that the looser one rejects. */
  lemma NarrowsKeep(c: Customer, g: Filters, f: Filters)
    requires Narrows(g, f) && Keep(c, g)
    ensures Keep(c, f)
  {
    NarrowsMatches(c, g, f, City);
    NarrowsMatches(c, g, f, State);
    NarrowsMatches(c, g, f, Pin);
  }

  /** Tightening the filters can only shrink the visible list: the rows
      shown under g are a subsequence of those shown under f. */
  lemma NarrowsVisible(data: seq<Customer>, g: Filters, f: Filters)
    requires Narrows(g, f)
    ensures IsSubsequence(Visible(data, g), Visible(data, f))
  {
    forall c | c in data && Keep(c, g) ensures Keep(c, f) {
      NarrowsKeep(c, g, f);
    }
    FilterNarrows(KeepBy(g), KeepBy(f), data);
  }

  /** Typing more characters at the end of a filter input narrows it. */
  lemma TypingNarrows(f: Filters, k: Key, more: string)
    ensures Narrows(WithFilter(f, k, FilterValue(f, k) + more), f)
  {
    var t := FilterValue(f, k);
    var g := WithFilter(f, k, t + more);
    if k != Pin {
      LowerAppend(t, more);
    }
    OccursInExtension(Fold(k, t), Fold(k, more));
    ContainsIffOccurs(Fold(k, t + more), Fold(k, t));
    forall j ensures FilterValue(f, j) == ""
                  || (FilterValue(g, j) != "" && Contains(Fold(j, FilterValue(g, j)), Fold(j, FilterValue(f, j))))
    {
      if j != k && FilterValue(f, j) != "" {
        var v := Fold(j, FilterValue(f, j));
        OccursInExtension(v, []);
        assert v + [] == v;
        ContainsIffOccurs(v, v);
      }
    }
  }

  /** City and state filters ignore case: two filter sets that agree on
      the pin and whose city and state lower-case alike keep the same
      customers. */
  lemma CaseInsensitive(c: Customer, f: Filters, g: Filters)
    requires Lower(f.city) == Lower(g.city) && Lower(f.state) == Lower(g.state)
    requires f.pin == g.pin
    ensures Keep(c, f) <==> Keep(c, g)
  {
    assert f.city == "" <==> g.city == "" by {
      assert |f.city| == |Lower(f.city)| && |g.city| == |Lower(g.city)|;
    }
    assert f.state == "" <==> g.state == "" by {
      assert |f.state| == |Lower(f.state)| && |g.state| == |Lower(g.state)|;
    }
  }

  /** "spring" occurs, ignoring case, in "Springfield". */
  lemma SpringInSpringfield(city: string, filter: string)
    requires city == "Springfield" && filter == "spring"
    ensures Contains(Fold(City, city), Fold(City, filter))
  {
    assert LowerChar(city[0]) == 's' == LowerChar(filter[0]);
    forall i | 1 <= i < |filter| ensures LowerChar(city[i]) == LowerChar(filter[i]) {
      assert city[i] == filter[i];
    }
    LowerPrefixContains(filter, city);
  }

  /** A city filter "spring" keeps a customer in "Springfield" and also a
      customer in "Nowhere" with an address in "Springfield". */
  lemma SpringExample(c: Customer, d: Customer, a: Address)
    requires c.city == Some("Springfield") && d.city == Some("Nowhere")
    requires a.city == "Springfield" && d.addresses == Some([a])
    ensures Keep(c, Filters("spring", "", "")) && Keep(d, Filters("spring", "", ""))
  {
    var f := Filters("spring", "", "");
    SpringInSpringfield("Springfield", "spring");
    assert FilterValue(f, City) == "spring" && FilterValue(f, State) == "" && FilterValue(f, Pin) == "";
    assert OwnField(c, City) == Some("Springfield");
    assert Matches(c, f, City);
    assert a in d.addresses.value && AddressFieldOf(a, City) == "Springfield";
    assert Matches(d, f, City);
  }

  /** "Previous": `Math.max(p - 1, 1)`. */
  function PreviousPage(p: int): (r: int)
    ensures r >= 1
    ensures p >= 2 ==> r == p - 1
    ensures p < 2 ==> r == 1
  {
    if p - 1 > 1 then p - 1 else 1
  }

  /** "Next": `p + 1`, with no upper bound; "Previous" undoes it. */
  function NextPage(p: int): (r: int)
    ensures r > p
    ensures p >= 1 ==> PreviousPage(r) == p
  {
    p + 1
  }

  /** The list view's state: the rows shown, the filter inputs and the
      current page. */
  class ListView {
    var customers: seq<Customer>
    var filters: Filters
    var page: int

    ghost predicate Valid()
      reads this
    {
      page >= 1
    }

    constructor ()
      ensures Valid()
      ensures customers == [] && filters == NoFilters && page == 1
    {
      customers, filters, page := [], NoFilters, 1;
    }

    /** A fetch of the current page resolved with `data`. */
    method Fetched(data: seq<Customer>)
      requires Valid()
      modifies this
      ensures Valid()
      ensures customers == Visible(data, filters)
      ensures forall c :: c in customers <==> c in data && Keep(c, filters)
      ensures filters == old(filters) && page == old(page)
    {
      customers := Visible(data, filters);
    }

    /** Typing into one filter input. */
    method SetFilter(k: Key, v: string)
      requires Valid()
      modifies this
      ensures Valid()
      ensures filters == WithFilter(old(filters), k, v)
      ensures customers == old(customers) && page == old(page)
    {
      filters := WithFilter(filters, k, v);
    }

    /** `clearFilters`: all three inputs back to empty. */
    method ClearFilters()
      requires Valid()
      modifies this
      ensures Valid()
      ensures filters == NoFilters
      ensures forall k :: FilterValue(filters, k) == ""
      ensures customers == old(customers) && page == old(page)
    {
      filters := NoFilters;
    }

    method Previous()
      requires Valid()
      modifies this
      ensures Valid()
      ensures page == PreviousPage(old(page))
      ensures old(page) > 1 ==> page == old(page) - 1
      ensures old(page) == 1 ==> page == 1
      ensures customers == old(customers) && filters == old(filters)
    {
      page := PreviousPage(page);
    }

    method Next()
      requires Valid()
      modifies this
      ensures Valid()
      ensures page == old(page) + 1
      ensures customers == old(customers) && filters == old(filters)
    {
      page := NextPage(page);
    }
  }
}
