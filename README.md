# Museum events: ticket cart and curator form, modelled in Dafny

This project models the two pieces of logic in the museum-event web
application that do more than render markup:

- **The ticket cart store** (`src/stores/ticketStore.js`). The visitor's cart is
  an ordered list of lines, one per event id. Each line holds a quantity, a price
  per ticket and a snapshot of the event's `totalTickets` and `bookedTickets`.
  The five actions are `setEventInCart`, `incrementTicketQuantity`,
  `decrementTicketQuantity`, `removeEventFromCart` and `clearCart`. They keep every
  quantity between 1 and `totalTickets - bookedTickets`.
- **The curator's event form** (`src/components/kurator_create_edit/KuratorForm.jsx`).
  It covers these parts:
  - selecting and deselecting artworks, with a per-location cap `maxArtworks`;
  - keeping the list of selected records in step with the selected ids;
  - the gallery of artworks not yet selected, shown 15 per page;
  - the filter string sent to the art search;
  - the error text shown when saving an event fails.

Files:

- `js_values.dfy` (module `JsValues`) models the JavaScript values the two files
  receive. A numeric field is absent, not a number, or an integer. The module
  also defines the coercions `x || d` and `parseFloat(x) || 0`.
- `ticket_store.dfy` (module `TicketStore`) has one pure function per action over
  the list of lines: `Upserted`, `Incremented`, `Decremented`, `Removed` and the
  empty list. The lemmas about these functions state what each action does and
  that each keeps the cart invariant `CartValid`. The class `CartStore` holds the
  `items` field. Each of its methods replaces `items` with that function of the
  old list.
- `kurator_form.dfy` (module `KuratorForm`) has the click toggle `Clicked`, the
  gallery filter, `Array.prototype.slice` with its negative-index rules, the
  page count, the filter list and the error text. The class `CuratorForm` holds
  the three pieces of component state (`selectedImages`,
  `selectedArtworkDetails`, `currentPage`) and updates them in its methods.

Where the source's own comments and its code disagree, the model follows the code:

- A sold-out `setEventInCart` empties the **whole** cart, not only that event's
  line. The comment at `src/stores/ticketStore.js:50` speaks of emptying the
  cart "for this event"; the lines after it admit that everything goes
  (`SetEventSoldOutClearsCart`, `SoldOutEventDropsOtherLines`).
- `decrementTicketQuantity` never removes a line whose quantity is positive. It sets the quantity to
  `max(1, q - 1)` and only then drops lines whose quantity is not positive, so a
  line at 1 stays at 1. The comment at `src/stores/ticketStore.js:141` says the
  line is removed (`DecrementLowersToFloor`, `LastTicketIsNeverDecrementedAway`).

Quantities, prices and ticket counts are integers. A missing or non-numeric
ticket count becomes 0, because counts go through `parseFloat(x) || 0`. The
requested quantity and the price are only read with `x || d`. So a missing,
`NaN` or zero price becomes 45, and a missing, `NaN`, zero or negative requested
quantity becomes 1. A non-numeric string in either of those two fields is not
modelled (see "Left out").

## Model

| member | source | states |
|---|---|---|
| `TicketStore.NewLine` | src/stores/ticketStore.js:87-95 | The appended line carries the caller's id and fields. Its stored snapshot gives the same availability as the caller's counts, and when tickets are available its quantity is within range. |
| `TicketStore.Refreshed` | src/stores/ticketStore.js:75-81 | The rewritten line keeps its id and other fields. It takes the caller's availability, and when tickets are available its quantity is within range. |
| `TicketStore.Upserted` | src/stores/ticketStore.js:22-103 | A sold-out event gives `[]`. Otherwise the length stays the same for a known id and grows by one for a new id. The ids of the earlier lines are kept, and the id is then present. |
| `TicketStore.Incremented` | src/stores/ticketStore.js:107-138 | The length is kept, and only quantities of lines with the id can change. The first such line either stays as it was or gains exactly one ticket without exceeding its availability. Covers the helper `WithQuantity`, the `.map` at lines 133-136. |
| `TicketStore.Lowered` | src/stores/ticketStore.js:144-149 | Only quantities change, and only on matching lines. A quantity of at least 1 stays at least 1 and never rises. |
| `TicketStore.Decremented` | src/stores/ticketStore.js:143-153 | The list never grows. When every quantity is positive, the filter removes nothing and the result is the lowered list. |
| `TicketStore.Apply` | src/stores/ticketStore.js:19-163 | Each of the five actions keeps the cart invariant. |
| `TicketStore.FindIndex` | src/stores/ticketStore.js:63-65 | The result is -1 exactly when no line has the id. Otherwise it is the first index whose line has that id. |
| `TicketStore.ValidatedQuantity` | src/stores/ticketStore.js:31-43 | When tickets are available, the quantity lies in `[1, available]`. A request within range is kept. A larger request becomes `available`. A missing, `NaN` or non-positive request becomes 1. |
| `TicketStore.SetEventSoldOutClearsCart` | src/stores/ticketStore.js:45-56 | When `total - booked <= 0`, the upsert leaves the cart empty: every line goes, not only this event's. |
| `TicketStore.SoldOutEventDropsOtherLines` | src/stores/ticketStore.js:45-56 | Concrete case: upserting a sold-out event B also removes a valid line for a different event. |
| `TicketStore.SetEventClampsQuantity` | src/stores/ticketStore.js:26-43 | When tickets are available, the new list has a line for the id. Its quantity is the clamped request, in `[1, total - booked]`, and its stored snapshot gives the same availability. |
| `TicketStore.SetEventUpdatesInPlace` | src/stores/ticketStore.js:63-83 | For an id already present, the length and the line's position are kept. Only that line's quantity, price, total and booked counts change; its id, its other fields and every other line are unchanged. |
| `TicketStore.SetEventAppendsNew` | src/stores/ticketStore.js:58-97 | For a new id, exactly one line is appended and the earlier lines are untouched. The new line stores the id, the caller's other fields, the clamped quantity and the coerced counts. A falsy price becomes 45, and non-numeric counts become 0. |
| `TicketStore.SetEventPreservesValid` | src/stores/ticketStore.js:19-103 | The upsert keeps "quantities within `[1, available]`" and "ids unique". |
| `TicketStore.SetEventIdempotent` | src/stores/ticketStore.js:19-103 | Upserting the same record twice gives the same list as upserting it once. |
| `TicketStore.IncrementRejected` | src/stores/ticketStore.js:106-129 | The list is unchanged when the id is absent or when `quantity + 1` exceeds the line's availability. |
| `TicketStore.IncrementRaisesByOne` | src/stores/ticketStore.js:130-137 | Otherwise, on a cart with unique ids, only that line changes and its quantity goes up by exactly 1. |
| `TicketStore.IncrementPreservesValid` | src/stores/ticketStore.js:106-138 | The increment keeps the cart invariant. |
| `TicketStore.KeepPositive` | src/stores/ticketStore.js:150-152 | The filter keeps exactly the lines with a positive quantity. |
| `TicketStore.DecrementKeepsPositiveLines` | src/stores/ticketStore.js:142-153 | On any list, a line that had a positive quantity is still present after a decrement, with its lowered value. |
| `TicketStore.DecrementLowersToFloor` | src/stores/ticketStore.js:142-153 | On a cart of positive quantities, the length is unchanged. Each matching line gets `max(1, q - 1)`, so a line at 1 stays, and the other lines are unchanged. |
| `TicketStore.DecrementPreservesValid` | src/stores/ticketStore.js:142-153 | The decrement keeps the cart invariant. |
| `TicketStore.LastTicketIsNeverDecrementedAway` | src/stores/ticketStore.js:19-153 | Concrete walk: with 2 tickets of 100 left, a request for 5 gives 2 and a further increment is refused. Two decrements leave the line at quantity 1. |
| `TicketStore.Removed` | src/stores/ticketStore.js:156-160 | The result holds exactly the lines whose id differs from the given one. |
| `TicketStore.RemoveUnknownIsNoOp` | src/stores/ticketStore.js:156-160 | Removing an unknown id leaves the list identical. |
| `TicketStore.RemoveCutsOutLine` | src/stores/ticketStore.js:156-160 | On a cart with unique ids, removing the id held at index k cuts out exactly that line and keeps the other lines in their order (`items[..k] + items[k+1..]`). |
| `TicketStore.RemovePreservesValid` | src/stores/ticketStore.js:156-160 | Removal keeps the cart invariant. |
| `TicketStore.Run` | src/stores/ticketStore.js:19-163 | From a valid cart, any sequence of the five actions keeps quantities within availability and ids unique. |
| `TicketStore.CartStore.constructor` | src/stores/ticketStore.js:13 | The store starts with an empty, valid cart. |
| `TicketStore.CartStore.SetEventInCart` | src/stores/ticketStore.js:19-103 | `items` becomes the upsert of the old list. The invariant is kept. A sold-out event leaves `items` empty. |
| `TicketStore.CartStore.IncrementTicketQuantity` | src/stores/ticketStore.js:106-138 | `items` becomes the increment of the old list, and the invariant is kept. |
| `TicketStore.CartStore.DecrementTicketQuantity` | src/stores/ticketStore.js:142-153 | `items` becomes the decrement of the old list. The invariant and the length are kept. |
| `TicketStore.CartStore.RemoveEventFromCart` | src/stores/ticketStore.js:156-160 | `items` becomes the old list without that id, and the invariant is kept. |
| `TicketStore.CartStore.ClearCart` | src/stores/ticketStore.js:163 | `items` becomes empty. |
| `KuratorForm.FindLocation` | src/components/kurator_create_edit/KuratorForm.jsx:142-144 | The result is the first location in the list with the chosen id. There is none exactly when no location has that id. |
| `KuratorForm.Clicked` | src/components/kurator_create_edit/KuratorForm.jsx:128-182 | A click toggles the artwork's id: after it the id is selected exactly when it was not before and no reached cap refused it. The other ids are untouched, and a selection within the cap stays within it. Covers the helpers `Cap` (the cap condition at lines 147-151) and `HasDetail` (the `.some` at lines 171-173). |
| `KuratorForm.WithoutId` | src/components/kurator_create_edit/KuratorForm.jsx:137-139 | The result holds exactly the selected ids other than the clicked one. |
| `KuratorForm.WithoutDetail` | src/components/kurator_create_edit/KuratorForm.jsx:163-167 | The result holds exactly the records whose number differs from the clicked one. |
| `KuratorForm.WithoutIdCutsOut` | src/components/kurator_create_edit/KuratorForm.jsx:137-139 | On distinct ids, removing the id at position `k` gives `ids[..k] + ids[k+1..]`, so the rest keep their order. |
| `KuratorForm.WithoutIdAbsent` | src/components/kurator_create_edit/KuratorForm.jsx:137-139 | Removing an id that is not selected leaves the ids unchanged. |
| `KuratorForm.WithoutDetailCutsOut` | src/components/kurator_create_edit/KuratorForm.jsx:163-167 | On records with distinct numbers, removing the number at position `k` gives `details[..k] + details[k+1..]`. |
| `KuratorForm.WithoutDetailAbsent` | src/components/kurator_create_edit/KuratorForm.jsx:163-167 | Removing a number no record holds leaves the records unchanged. |
| `KuratorForm.ClickDeselects` | src/components/kurator_create_edit/KuratorForm.jsx:130-167 | Clicking a selected artwork removes its number from the ids and every record with that number from the details. Nothing else is removed. On distinct lists the removed entry is cut out in place and the rest keep their order. Records are unchanged when none had that number. |
| `KuratorForm.ClickKeepsIdsDistinct` | src/components/kurator_create_edit/KuratorForm.jsx:127-183 | With or without a cap, no click puts an id into the selection twice. |
| `KuratorForm.ClicksStayDistinct` | src/components/kurator_create_edit/KuratorForm.jsx:127-183 | With or without a cap, no sequence of clicks duplicates an id or a record. |
| `KuratorForm.ClickRefusedAtCap` | src/components/kurator_create_edit/KuratorForm.jsx:142-157 | For an unselected artwork, when a cap applies and the selection already holds at least `maxArtworks` ids, both lists are unchanged. |
| `KuratorForm.ClickSelects` | src/components/kurator_create_edit/KuratorForm.jsx:147-177 | With no cap, or below it, the number is appended at the end of the ids. The record is appended only if no record with that number is present. |
| `KuratorForm.WithoutIdKeepsDistinct` | src/components/kurator_create_edit/KuratorForm.jsx:137-139 | Deselecting keeps the ids free of duplicates. |
| `KuratorForm.WithoutDetailKeepsDistinct` | src/components/kurator_create_edit/KuratorForm.jsx:163-167 | Deselecting keeps the records free of duplicate numbers. |
| `KuratorForm.ClickKeepsDetailsDistinct` | src/components/kurator_create_edit/KuratorForm.jsx:161-179 | No click puts a second record with the same number into the details. |
| `KuratorForm.ClickKeepsWithinCap` | src/components/kurator_create_edit/KuratorForm.jsx:127-183 | One click keeps "at most `maxArtworks` ids, no duplicate ids, no duplicate records". |
| `KuratorForm.ClicksStayWithinCap` | src/components/kurator_create_edit/KuratorForm.jsx:127-183 | Starting within the cap, no sequence of clicks exceeds `maxArtworks` or duplicates an id or a record. |
| `KuratorForm.GalleryImages` | src/components/kurator_create_edit/KuratorForm.jsx:105-107 | The gallery holds exactly the displayed artworks whose number is not selected. |
| `KuratorForm.JsSlice` | src/components/kurator_create_edit/KuratorForm.jsx:112-115 | The slice is never longer than the list and holds only its elements. For `0 <= start <= end` it is the elements at positions `[start, end)` that exist. |
| `KuratorForm.PageImages` | src/components/kurator_create_edit/KuratorForm.jsx:110-115 | Every page, whatever its number, holds at most 15 gallery artworks, and page 0 holds none. |
| `KuratorForm.GalleryKeepsOrder` | src/components/kurator_create_edit/KuratorForm.jsx:105-107 | The filter keeps the displayed order: filtering `a + b` gives the filtered `a` followed by the filtered `b`. |
| `KuratorForm.TotalPages` | src/components/kurator_create_edit/KuratorForm.jsx:118 | The page count is `ceil(n / 15)`: it is 0 for an empty gallery, and otherwise `(pages - 1) * 15 < n <= pages * 15`. |
| `KuratorForm.PageHoldsItsSlice` | src/components/kurator_create_edit/KuratorForm.jsx:110-115 | Page `p >= 1` holds the gallery elements at positions `[(p-1)*15, p*15)` that exist, so at most 15. |
| `KuratorForm.PagesWithinCountAreNonEmpty` | src/components/kurator_create_edit/KuratorForm.jsx:110-118 | A page `p >= 1` is non-empty exactly when `p <= totalPages`. |
| `KuratorForm.PagesCoverGallery` | src/components/kurator_create_edit/KuratorForm.jsx:110-118 | Pages 1 to `totalPages`, concatenated in order, are exactly the gallery. |
| `KuratorForm.FilterList` | src/components/kurator_create_edit/KuratorForm.jsx:268-272 | The filter list is empty exactly for `"all"`, and never holds more than one string. |
| `KuratorForm.FilterListRoundTrip` | src/components/kurator_create_edit/KuratorForm.jsx:267-272 | For a value other than `"all"`, the list is a single string that contains ':'. Splitting it at its first ':' gives back the name (if the name has no ':') and the value, so the string is exactly `name + ":" + value`. |
| `KuratorForm.SplitFilterReadsBack` | src/components/kurator_create_edit/KuratorForm.jsx:271 | Splitting `name:value` at its first ':' gives back `name` and `value`. |
| `KuratorForm.Contains` | src/components/kurator_create_edit/KuratorForm.jsx:238 | A string that starts with the substring contains it, and only a string at least as long as the substring can contain it. |
| `KuratorForm.ContainsAtSomePosition` | src/components/kurator_create_edit/KuratorForm.jsx:236-238 | The model of `includes` holds exactly when the substring occurs at some position. |
| `KuratorForm.SubmitErrorText` | src/components/kurator_create_edit/KuratorForm.jsx:234-244 | The text always starts with "Fejl: " and continues with a non-empty reason. The reason is the fixed conflict text when the server message contains the conflict marker. Otherwise it is the server message itself, or "Ukendt fejl." when there is none. |
| `KuratorForm.CuratorForm.constructor` | src/components/kurator_create_edit/KuratorForm.jsx:71-101 | The selection starts from the earlier event's ids and records, or empty, and the page starts at 1. |
| `KuratorForm.CuratorForm.HandleImageClick` | src/components/kurator_create_edit/KuratorForm.jsx:127-183 | The two lists become the toggle of the old ones, under the cap of the location chosen in the form. The page is unchanged, and distinct ids and distinct records stay distinct. |
| `KuratorForm.CuratorForm.Paginate` | src/components/kurator_create_edit/KuratorForm.jsx:121 | The page becomes the requested one, and the selection is unchanged. |
| `KuratorForm.CuratorForm.HandleFilterSelection` | src/components/kurator_create_edit/KuratorForm.jsx:267-277 | Returns the filter list, resets the page to 1 and leaves the selection unchanged. |
| `KuratorForm.CuratorForm.CurrentImagesForGallery` | src/components/kurator_create_edit/KuratorForm.jsx:105-115 | The current page shows at most 15 artworks, all of them displayed and none of them selected. |

## Left out

- The store and form machinery (Zustand's `create`/`set`, React's `useState`, `useTransition`, `useActionState`, `useForm`) is not modelled. The state is class fields, and each updater becomes one method call.
- Fractional ticket counts, prices and quantities from `parseFloat` are not modelled, because floating point is out of scope. All counts are integers.
- A non-numeric string as the requested quantity is not modelled. `Math.max(1, "abc" || 1)` is `NaN`, and `NaN > availableTickets` is false, so the source stores a line with quantity `NaN` and breaks `1 <= quantity`. Any later `decrementTicketQuantity`, whatever its id, then drops every such line: `Math.max(1, NaN - 1)` is `NaN`, and `NaN > 0` is false in the filter at `src/stores/ticketStore.js:152`. A numeric string quantity such as `"3"` becomes the number 3, and the model covers it as `Number(3)`.
- A string price is not modelled. `pricePerTicket || 45` keeps any truthy string, such as `"abc"`, as it is. Prices in the model are integers or a falsy value.
- `console.warn`, `alert`, `scrollIntoView`, `setTimeout` and router navigation are side effects and are not modelled.
- The HTTP calls (`createEvent`, `updateEvent`, the art search behind `filterData`) are network I/O and are not modelled. The displayed artworks and the server's error message are parameters.
- `KuratorForm.SubmitErrorText` models only the choice of text from the server's message. In `onSubmit` as written, that branch runs only for a falsy response and first calls `response.json()` on it, which throws. The network-error text in the `catch` block, and that control flow, are not modelled.
- The lookup of the chosen location reads the form field `locationId`, which is a parameter of `HandleImageClick`. Location ids are compared as strings, which stands in for `loc.id.toString()`.
- The rendering in the form's JSX (gallery markup, pagination buttons and their `disabled` conditions) is not modelled.
