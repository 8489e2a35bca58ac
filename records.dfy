/** The records exchanged with the customer backend: a customer with its
    nested addresses, as returned by `GET /customers?_expand=addresses` and
    `GET /customers/:id`. */
module Records {

  /** A JSON value that may be absent (`undefined` or `null`). */
  datatype Option<+T> = None | Some(value: T)

  /** Server-assigned identifier of a customer or an address. */
  type Id = int

  /** An address. `onlyOne` is the client-side "only one address" marker;
      an address the server returns without the marker has it false. */
  datatype Address = Address(
    id: Id,
    line1: string,
    city: string,
    state: string,
    pin: string,
    onlyOne: bool)

  /** A customer. The fields the list view reads with optional chaining
      (`c.city?.`, `c.state?.`, `c.pin?.`, `c.addresses?.`) may be absent. */
  datatype Customer = Customer(
    id: Id,
    firstName: string,
    lastName: string,
    phone: string,
    address: string,
    city: Option<string>,
    state: Option<string>,
    pin: Option<string>,
    addresses: Option<seq<Address>>)

  /** `c.addresses || []`: the customer's addresses, empty when absent. */
  function AddressesOf(c: Customer): seq<Address>
  {
    match c.addresses
    case Some(s) => s
    case None => []
  }
}
