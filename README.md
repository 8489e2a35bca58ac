# Customer manager: list filter, create-form validation and profile address editing

This project models the logic of a small browser client that manages
customers and their addresses through a REST backend. It covers three views:

- **Customer list** (`CustomerList`). The client fetches a page of customers
  with their addresses expanded. It then keeps the rows that match three
  filter inputs: city, state and pin. A non-empty filter must occur as a
  substring of the customer's own field, or of the same field of one of its
  addresses. City and state are compared after ASCII lower-casing; the pin
  is compared as typed. "Previous" and "Next" change the page number.
- **Create form** (`CustomerForm`). The form has seven inputs. Validation is
  an ordered chain: all fields present, then a phone matching `^\d{10}$`,
  then a pin matching `^\d{6}$`. A failing form shows the first error and is
  not posted. A valid form is posted, and the success message appears only
  when the response is ok.
- **Customer profile** (`CustomerProfile`). The view holds one customer and
  its address list. You can edit customer fields, save the customer, delete
  it, add an address (after validation), edit, save and delete addresses, and
  mark one address as the only one.

Each view is a class whose fields are the component's state. Its methods
reassign those fields as the event handlers do. The list rewrites behind
them are pure functions: `Arrays.Map` and `Arrays.Filter` model
`Array.prototype.map` and `filter`, and lemmas state their properties.
Write calls to the backend (POST, PUT, DELETE) are recorded in the order
they are issued (`posted`, `requests`); the two GETs appear only through
their replies (`ListView.Fetched`'s and `ProfileView.Loaded`'s `data`). Parameters stand in for the server's replies, `res.ok` and the
answers to confirmation dialogs.

Two details of the code that the model keeps as they are:

- The pin filter is compared case-sensitively, unlike city and state
  (src/components/CustomerList.js:33-35).
- The "only one" marker is a per-address flag that every mark rewrites
  (src/components/CustomerProfile.js:89-96).

## Model

| member | source | states |
|---|---|---|
| Arrays.Map | src/components/CustomerProfile.js:91-95 | `map` keeps the length and puts f of element i at position i |
| Arrays.Filter | src/components/CustomerList.js:18 | `filter` returns no more elements than its input; an element is in the result iff it is in the input and satisfies the predicate |
| Arrays.FilterIndices | src/components/CustomerList.js:18 | the result of `filter` is the input read at increasing positions, and those positions are exactly the ones whose element satisfies the predicate |
| Arrays.FilterSelects | src/components/CustomerList.js:18 | the same, as an existence statement: some increasing embedding selects exactly the satisfying positions |
| Arrays.FilterIsSubsequence | src/components/CustomerList.js:18 | the filtered list is an order-preserving subsequence of its input |
| Arrays.FilterAll | src/components/CustomerList.js:18 | when every element satisfies the predicate, `filter` returns its input unchanged |
| Arrays.FilterNarrows | src/components/CustomerList.js:18 | filtering by a stronger predicate after a weaker one equals filtering by the stronger alone, and its result is a subsequence of the weaker one's |
| Text.Lower | src/components/CustomerList.js:20 | ASCII `toLowerCase` keeps the length and lower-cases each character on its own |
| Text.LowerAppend | src/components/CustomerList.js:20 | lower-casing distributes over concatenation |
| Text.ContainsIffOccurs | src/components/CustomerList.js:20 | `includes` holds iff the searched string occurs at some position |
| Text.OccursTransitive | src/components/CustomerList.js:20 | a substring of a substring of s is a substring of s |
| Text.MatchesDigitsIff | src/components/CustomerForm.js:34-35 | the anchored pattern `^\d{n}$` accepts exactly the strings of n ASCII digits |
| CustomerList.WithFilter | src/components/CustomerList.js:61-73 | typing into one filter input changes that filter and leaves the other two unchanged |
| CustomerList.Fold | src/components/CustomerList.js:19-36 | city and state are lower-cased character by character before comparison; the pin is compared as typed; folding keeps the length |
| CustomerList.CaseInsensitive | src/components/CustomerList.js:19-31 | filter sets whose city and state lower-case alike, with equal pins, keep exactly the same customers |
| CustomerList.MatchesIffSatisfies | src/components/CustomerList.js:19-36 | one key's match holds iff its filter is empty, or occurs (after folding) in the customer's field when present, or in that field of some address |
| CustomerList.KeepIff | src/components/CustomerList.js:19-38 | a row is kept iff, for every key with a non-empty filter, the folded filter occurs in the folded customer field or in the folded field of one of its addresses |
| CustomerList.VisibleSelects | src/components/CustomerList.js:18-39 | the shown rows are exactly the fetched rows that are kept, in fetch order |
| CustomerList.NoFiltersShowAll | src/components/CustomerList.js:19-36 | with all three filters empty, the fetched page is shown unchanged |
| CustomerList.MissingFieldExcludes | src/components/CustomerList.js:19-36 | a customer with no such field and no addresses is excluded by any non-empty filter on that key |
| CustomerList.NarrowsMatches | src/components/CustomerList.js:19-36 | when a stricter filter matches a key, the looser filter matches it too |
| CustomerList.NarrowsKeep | src/components/CustomerList.js:38 | a customer kept under stricter filters is kept under looser ones, because the three matches are conjoined |
| CustomerList.NarrowsVisible | src/components/CustomerList.js:18-39 | tightening the filters shows a subsequence of the rows shown before |
| CustomerList.TypingNarrows | src/components/CustomerList.js:61-73 | typing more characters at the end of a filter input tightens the filters |
| Text.LowerPrefixContains | src/components/CustomerList.js:20 | a string that matches the start of s up to case is found by `includes` once both are lower-cased |
| CustomerList.SpringInSpringfield | src/components/CustomerList.js:20 | "spring" occurs in "Springfield" once both are lower-cased |
| CustomerList.SpringExample | src/components/CustomerList.js:19-24 | city filter "spring" keeps a customer in "Springfield" and one in "Nowhere" that has an address in "Springfield" |
| CustomerList.PreviousPage | src/components/CustomerList.js:134 | `Math.max(p - 1, 1)`: always at least 1, and one less than p when p is at least 2 |
| CustomerList.NextPage | src/components/CustomerList.js:142 | "Next" goes past p with no upper bound, and from a valid page "Previous" brings it back |
| CustomerList.ListView.constructor | src/components/CustomerList.js:5-7 | starts with no rows, empty filters and page 1 |
| CustomerList.ListView.Fetched | src/components/CustomerList.js:18-41 | the shown rows become the fetched rows that the current filters keep; filters and page are unchanged |
| CustomerList.ListView.SetFilter | src/components/CustomerList.js:61-73 | one filter changes; rows and page are unchanged |
| CustomerList.ListView.ClearFilters | src/components/CustomerList.js:49 | `clearFilters` sets city, state and pin to "" |
| CustomerList.ListView.Previous | src/components/CustomerList.js:134 | page becomes max(p - 1, 1) and stays at least 1 |
| CustomerList.ListView.Next | src/components/CustomerList.js:142 | page becomes exactly p + 1 |
| CustomerForm.Set | src/components/CustomerForm.js:18-20 | the named field takes the new value and the other six keep theirs |
| CustomerForm.Validate | src/components/CustomerForm.js:22-37 | returns "" iff all seven fields are non-empty, phone is 10 ASCII digits and pin is 6 ASCII digits; a missing field gives "All fields are required!" before any format error; otherwise a bad phone gives "Phone must be 10 digits" before the pin error "PIN must be 6 digits" |
| CustomerForm.CreateView.constructor | src/components/CustomerForm.js:6-16 | starts with seven empty fields, no error, no success message and nothing posted |
| CustomerForm.CreateView.HandleChange | src/components/CustomerForm.js:18-20 | the form becomes `Set(form, field, value)`; error, success and posted are unchanged |
| CustomerForm.CreateView.HandleSubmit | src/components/CustomerForm.js:39-57 | the error becomes the validation result; the form is posted iff validation passes; the success message is set only after a posted form gets an ok response |
| CustomerProfile.SetDraft | src/components/CustomerProfile.js:243-274 | one input of the new-address draft changes and the other three are unchanged |
| CustomerProfile.SetAddressField | src/components/CustomerProfile.js:164-208 | one field of an address changes; its id, marker and other fields are unchanged |
| CustomerProfile.SetCustomerField | src/components/CustomerProfile.js:112-114 | the named customer field changes; the other editable fields and the rest of the record, addresses included, are unchanged |
| CustomerProfile.AcceptsDraft | src/components/CustomerProfile.js:49-54 | a draft is accepted iff line1, city and state are non-empty and pin is exactly 6 ASCII digits |
| CustomerProfile.MarkSingle | src/components/CustomerProfile.js:89-96 | every address gets `onlyOne == (a.id == id)`; length, order and all other fields are unchanged; with unique ids at most one is marked; if the id is absent none is marked |
| CustomerProfile.MarkSingleLastWins | src/components/CustomerProfile.js:89-96 | marking b after a gives the same list as marking b alone, so a is no longer marked |
| CustomerProfile.MarkSingleExactlyOne | src/components/CustomerProfile.js:89-96 | with unique ids, marking the address at position i marks it and no other address |
| CustomerProfile.ReplaceById | src/components/CustomerProfile.js:75 | entries with the saved address's id become that address; other entries, the length and every position's id are unchanged; unique ids stay unique |
| CustomerProfile.SaveCurrentKeepsList | src/components/CustomerProfile.js:69-76 | with unique ids, saving an address exactly as listed leaves the local list unchanged |
| CustomerProfile.RemoveById | src/components/CustomerProfile.js:84 | an address remains iff it was present and its id differs from the deleted id |
| CustomerProfile.RemoveKeepsOthersInOrder | src/components/CustomerProfile.js:84 | deleting keeps, in their order, exactly the positions whose id differs |
| CustomerProfile.RemoveAbsentId | src/components/CustomerProfile.js:84 | deleting an id that no address has changes nothing |
| CustomerProfile.RemoveUnique | src/components/CustomerProfile.js:79-85 | with unique ids, deleting the id at position i removes exactly that entry: the result is `s[..i] + s[i+1..]` |
| CustomerProfile.RemovePreserves | src/components/CustomerProfile.js:84 | deleting keeps ids unique and keeps at most one address marked |
| CustomerProfile.EditAddress | src/components/CustomerProfile.js:164-208 | the edited field of each address with the id takes the value; every other address, other field, id and marker is unchanged |
| CustomerProfile.EditPreserves | src/components/CustomerProfile.js:164-208 | a field edit keeps ids unique and keeps at most one address marked |
| CustomerProfile.ProfileView.constructor | src/components/CustomerProfile.js:7-15 | starts with no customer, not editing, no addresses, an empty draft and no requests |
| CustomerProfile.ProfileView.Loaded | src/components/CustomerProfile.js:18-25 | the fetched customer is stored and its addresses, or [], become the address list |
| CustomerProfile.ProfileView.StartEditing | src/components/CustomerProfile.js:141 | "Edit" enters edit mode and changes nothing else |
| CustomerProfile.ProfileView.CancelEditing | src/components/CustomerProfile.js:125 | "Cancel" leaves edit mode and keeps the local edits |
| CustomerProfile.ProfileView.EditCustomer | src/components/CustomerProfile.js:112-114 | only the named customer field changes |
| CustomerProfile.ProfileView.HandleUpdate | src/components/CustomerProfile.js:28-35 | the whole local customer record is sent with PUT, and edit mode ends |
| CustomerProfile.ProfileView.HandleDelete | src/components/CustomerProfile.js:38-45 | a DELETE of the customer is sent iff the dialog is confirmed; local state is unchanged |
| CustomerProfile.ProfileView.EditNewAddress | src/components/CustomerProfile.js:243-274 | only the named input of the draft changes |
| CustomerProfile.ProfileView.HandleAddAddress | src/components/CustomerProfile.js:48-66 | a rejected draft changes nothing and sends nothing; an accepted draft is posted, the server's record is appended to the old list, and the draft resets to four empty strings |
| CustomerProfile.ProfileView.HandleUpdateAddress | src/components/CustomerProfile.js:69-76 | a PUT of the address is sent and the list becomes `ReplaceById(old list, addr)` |
| CustomerProfile.ProfileView.HandleDeleteAddress | src/components/CustomerProfile.js:79-86 | when confirmed, a DELETE is sent and the list becomes `RemoveById(old list, id)`; otherwise nothing changes |
| CustomerProfile.ProfileView.MarkSingleAddress | src/components/CustomerProfile.js:89-96 | the list becomes `MarkSingle(old list, id)`, with at most one address marked when ids are unique; nothing is sent |
| CustomerProfile.ProfileView.EditAddressField | src/components/CustomerProfile.js:164-208 | the list becomes `EditAddress(old list, id, field, value)`; nothing is sent |

## Left out

- HTTP: URLs, JSON encoding and the `fetch` calls themselves are not modelled. A write call (POST, PUT, DELETE) is recorded as a value in `posted` or `requests`. The server's reply is a parameter: the fetched page, the loaded customer, the created address and `res.ok`.
- Network failures: the source catches none, so a failed call leaves its handler unfinished (for example, edit mode stays on when the customer PUT rejects). The model assumes every call resolves.
- Page size: the `_limit` of 5 only appears in the list query, so it is not modelled; the server decides what a page holds.
- The list's `GET /customers?_page=&_limit=&_expand=addresses` and the profile's `GET /customers/:id` are not recorded as requests, so the model does not tie the page number or the route id to what is fetched; only their replies enter, as `data`.
- Re-fetching on page or filter changes (`useEffect`), async interleaving and stale closures. `ListView.Fetched` models one fetch that resolves under the current filters.
- Rendering: JSX, CSS, the disabled state of "Previous" on page 1 and all display text.
- Routing and navigation: `App.js`, the `navigate` calls and the delayed redirect after a create.
- `src/context/searchContext.js`: a default context object with no logic.
- `window.confirm` and `alert`: a confirmation's answer is a boolean parameter, and an alert has no effect on state.
- Case folding: only ASCII letters are lower-cased, not full Unicode `toLowerCase`.
- Malformed server data: address fields are assumed to be present strings, and a customer's city, state and pin are absent or strings. In the source, a missing address field or a numeric pin can throw inside the filter when evaluation reaches that operand: the key's filter is non-empty and, for an address field, the customer's own field did not match and `some` has not yet found a match, and the list keeps its previous rows. An address without `onlyOne` is modelled with the flag false.
- CustomerProfile.ProfileView.EditCustomer: requires a loaded customer, because the customer inputs are rendered only after the load (src/components/CustomerProfile.js:98).
- CustomerProfile.ProfileView.HandleUpdate: requires a loaded customer, for the same reason.
