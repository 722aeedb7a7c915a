# Wish list: priority score, item creation and the page's list state

This project is a Dafny model of the two pieces of logic in the wish-list
application.

- **The worker** (`hono-backend/src/index.ts`, module `Backend` in
  `backend.dfy`). It scores a wish as category coefficient × desire level ×
  status coefficient. The category coefficient is 1.5 for a necessity and
  1.0 otherwise. The status coefficient is wanted 1.0, maybe_not_needed 0.1,
  purchased 0 and not_needed 0. The POST /items handler builds
  `{ ...draft, id, score }` and puts it into the `WISH_LIST_KV` namespace
  under its id. The namespace is the class `WishListKv`, whose entries are a
  `map<string, WishItem>`. Scores are exact `real`s and are not rounded,
  because the handler does not round.
- **The page** (`hono-frontend/src/App.tsx`, module `Frontend` in
  `frontend.dfy`). The component's state hooks become the fields of the class
  `App`. Each event handler becomes a method, and the server's answer to the
  handler's request is a parameter of that method. The list transforms
  (append, replace-by-id, filter-by-id), the field merge of the edit form,
  the `Number` conversion of the desire level and the star display are
  functions with lemmas about them. The edit data (`Partial<WishlistItem>`)
  is a map from field name to a JavaScript value. This is because
  `handleEditChange` writes whatever key the form control is named.
  `RecordItem` reads such a map back as an item. It is the reference the
  edit-data lemmas are stated against.
- `wrappers.dfy` holds the `Option` type that both modules use.

The two files use different schemas, and the model keeps both as written.
The worker has string ids, a `name` field, the category `nice_to_have` and
the statuses `maybe_not_needed` / `not_needed`. The page has numeric ids, an
`item` field, the category `improvement` and the statuses
`maybe_unnecessary` / `unnecessary`. The page also talks to `/api/wishlist`,
while the worker serves `/items`.

Facts about the code that the model keeps:
- The handler does not round the score. `Backend.ScoreNotRounded` gives 0.15.
- Each item is its own KV entry, keyed by a random id.
- The worker has no versioning, compare-and-swap, retry, input validation,
  sorting by score, or update/delete endpoint.
- Line 28 of `index.ts` is syntactically incomplete. The model takes the
  parsed draft as the handler's input.

## Model

| member | source | states |
|---|---|---|
| `Backend.CategoryCoefficient` | hono-backend/src/index.ts:31 | the category coefficient lies between 1.0 and 1.5 |
| `Backend.StatusCoefficient` | hono-backend/src/index.ts:33-38 | the status coefficient lies between 0 and 1 |
| `Backend.Score` | hono-backend/src/index.ts:40 | the score is the product of the category coefficient, the desire level and the status coefficient, with no rounding; the lemmas below are stated against it |
| `Backend.ScoreMatchesHundredths` | hono-backend/src/index.ts:31-40 | 100 × score equals the integer product of the tenths tables (15/10 for category, 10/1/0/0 for status) and the desire level, for every input |
| `Backend.ScoreZeroIffResolved` | hono-backend/src/index.ts:33-40 | the score is exactly 0 if and only if the status is purchased or not_needed, whatever the category and desire |
| `Backend.ScoreBounds` | hono-backend/src/index.ts:31-40 | every score is at least 0 and at most 4.5 |
| `Backend.ScoreMaximum` | hono-backend/src/index.ts:31-40 | a wanted necessity at desire 3 scores 4.5, and no input scores more |
| `Backend.ScoreNotRounded` | hono-backend/src/index.ts:35-40 | a maybe_not_needed necessity at desire 1 scores 0.15, so scores are not rounded to one decimal |
| `Backend.ScoreMonotoneInDesire` | hono-backend/src/index.ts:31-40 | for a fixed category and status, a higher desire level never gives a lower score |
| `Backend.NecessityOutranksNiceToHave` | hono-backend/src/index.ts:31-40 | with equal desire and status, a necessity scores at least as much as a nice_to_have, and strictly more exactly when the status is wanted or maybe_not_needed |
| `Backend.NewItem` | hono-backend/src/index.ts:40-42 | the created item keeps every draft field, carries the minted id, and its score is the score of its own category, desire level and status |
| `Backend.NewItemIgnoresSuppliedFields` | hono-backend/src/index.ts:42 | an id or score carried in the request body has no effect on the created item, because `id` and `score` come after the spread |
| `Backend.DraftRoundTrip` | hono-backend/src/index.ts:28-42 | taking the draft back out of a created item gives the posted draft, minus any supplied id and score |
| `Backend.NewItemRebuildsIffWellScored` | hono-backend/src/index.ts:40-42 | an item is rebuilt unchanged from its own fields and id if and only if its score is the score of its fields |
| `Backend.PutNewItemKeepsConsistent` | hono-backend/src/index.ts:40-44 | if every stored item sits under its own id and is well scored, that stays true after a created item is stored |
| `Backend.WishListKv.constructor` | hono-backend/src/index.ts:3-5 | a namespace starts with no entries |
| `Backend.WishListKv.Put` | hono-backend/src/index.ts:44 | after `put(key, value)` the key maps to the value, and every other key is unchanged |
| `Backend.PostItems` | hono-backend/src/index.ts:27-46 | the returned item is the created item and is what the store now holds under the new id; the other keys and their values are unchanged; a fresh id grows the store by one; consistency is preserved |
| `Frontend.CategoryName` | hono-frontend/src/App.tsx:7 | each category is written as its string literal: necessity, improvement |
| `Frontend.StatusName` | hono-frontend/src/App.tsx:9 | each status is written as its string literal: wanted, purchased, maybe_unnecessary, unnecessary |
| `Frontend.CategoryFromName` | hono-frontend/src/App.tsx:7 | a recognised category string is the name of the category it maps to |
| `Frontend.StatusFromName` | hono-frontend/src/App.tsx:9 | a recognised status string is the name of the status it maps to |
| `Frontend.CategoryNameRoundTrip` | hono-frontend/src/App.tsx:7 | every category is recovered from its string |
| `Frontend.StatusNameRoundTrip` | hono-frontend/src/App.tsx:9 | every status is recovered from its string |
| `Frontend.ToNumber` | hono-frontend/src/App.tsx:90 | the conversion gives a number exactly for digit strings, and that number is a non-negative whole number; any other string gives NaN |
| `Frontend.DecimalString` | hono-frontend/src/App.tsx:241-243 | a number rendered as an option value is a non-empty string of digits |
| `Frontend.DigitsValueOfDecimal` | hono-frontend/src/App.tsx:241-243 | reading the digits of a rendered number gives that number back |
| `Frontend.ToNumberOfDecimal` | hono-frontend/src/App.tsx:90 | `Number` of a rendered option value is that value |
| `Frontend.ItemRecord` | hono-frontend/src/App.tsx:83 | the spread copy of an item has exactly the item's eight fields as keys |
| `Frontend.ItemRecordRoundTrip` | hono-frontend/src/App.tsx:83 | the spread copy of an item reads back as exactly that item |
| `Frontend.EditMerge` | hono-frontend/src/App.tsx:86-91 | the merge sets the named field and keeps every other field; the value is converted with `Number` exactly when the field is desireLevel |
| `Frontend.EditDesireLevel` | hono-frontend/src/App.tsx:86-91 | choosing desire d in the edit form turns the copy of an item into the copy of that item with desire d |
| `Frontend.EditDesireLevelNeedsNumber` | hono-frontend/src/App.tsx:90 | illustrates why the conversion is there: if desireLevel were stored as text, the edit data would no longer read as an item |
| `Frontend.EditName` | hono-frontend/src/App.tsx:86-91 | editing the name changes only the item's name |
| `Frontend.EditReason` | hono-frontend/src/App.tsx:86-91 | editing the reason changes only the item's reason |
| `Frontend.EditMemo` | hono-frontend/src/App.tsx:86-91 | editing the memo changes only the item's memo |
| `Frontend.EditCategory` | hono-frontend/src/App.tsx:225-232 | choosing a category option changes only the item's category |
| `Frontend.EditStatus` | hono-frontend/src/App.tsx:86-91 | choosing a status option changes only the item's status |
| `Frontend.ReplaceById` | hono-frontend/src/App.tsx:112 | the length is kept; each entry whose id equals the returned item's id becomes that item; every other entry stays as it was, in its position |
| `Frontend.ReplaceByIdInstalls` | hono-frontend/src/App.tsx:112 | when the list holds the returned item's id, the returned item is in the list afterwards |
| `Frontend.ReplaceKeepsUniqueIds` | hono-frontend/src/App.tsx:112 | replacing by id keeps the ids unique |
| `Frontend.RemoveById` | hono-frontend/src/App.tsx:135 | an entry stays exactly when it was in the list and has a different id; the list never grows |
| `Frontend.RemoveByIdConcat` | hono-frontend/src/App.tsx:135 | filtering a concatenation is the concatenation of the filtered parts, so the remaining entries keep their order |
| `Frontend.RemoveByIdAbsent` | hono-frontend/src/App.tsx:135 | a list with no entry of that id is returned unchanged |
| `Frontend.RemoveByIdUnique` | hono-frontend/src/App.tsx:135 | with unique ids, deleting a present id removes exactly that one entry and keeps the rest in order |
| `Frontend.RemoveKeepsUniqueIds` | hono-frontend/src/App.tsx:135 | filtering keeps the ids unique |
| `Frontend.AppendKeepsUniqueIds` | hono-frontend/src/App.tsx:68 | appending an item whose id is new keeps the ids unique |
| `Frontend.Repeat` | hono-frontend/src/App.tsx:283 | `c.repeat(n)` has length n and every character is c |
| `Frontend.Stars` | hono-frontend/src/App.tsx:283 | the display has 3 characters: filled stars in the first desireLevel positions and empty stars after them |
| `Frontend.StarsCount` | hono-frontend/src/App.tsx:283 | the display has exactly desireLevel filled stars and 3 − desireLevel empty ones |
| `Frontend.App.constructor` | hono-frontend/src/App.tsx:16-23 | the state starts with the useState initial values: an empty list, an empty form with necessity and desire 1, nothing being edited |
| `Frontend.App.SubmitDraft` | hono-frontend/src/App.tsx:43-52 | there is no body exactly when the name is empty; otherwise the body carries the form fields and the status wanted |
| `Frontend.App.HandleSubmit` | hono-frontend/src/App.tsx:41-79 | an empty name or a failed request changes nothing; a successful add appends the returned item at the end, resets the form to "", necessity, 1, "", "", and leaves the edit state alone |
| `Frontend.App.HandleEditClick` | hono-frontend/src/App.tsx:81-84 | the edited id becomes the item's id and the edit data becomes a copy that reads back as the item; nothing else changes |
| `Frontend.App.HandleEditChange` | hono-frontend/src/App.tsx:86-92 | only the edit data changes, by the single-field merge |
| `Frontend.App.HandleUpdate` | hono-frontend/src/App.tsx:94-118 | with no item being edited, nothing is sent and nothing changes; the PUT carries the edited id and the edit data; a failure changes nothing; success replaces by the returned item's id and leaves edit mode; the form is untouched |
| `Frontend.App.HandleCancelEdit` | hono-frontend/src/App.tsx:120-123 | edit mode ends with empty edit data; the list and the form are untouched |
| `Frontend.App.HandleDelete` | hono-frontend/src/App.tsx:125-139 | a failure changes nothing; success filters the id out of the list, so no entry with it remains; the form and the edit state are untouched |

## Left out

- HTTP: routing, `fetch`, URLs, status codes and error logging are not modelled. A request's outcome is a parameter: `Ok` with the decoded body, or `Failed`.
- `GET /` and `GET /items` are not modelled. The latter passes the KV `list()` key listing straight through, with no logic of its own.
- `crypto.randomUUID()` is not modelled. The minted id is a parameter of `Backend.PostItems`, so nothing guarantees it is fresh. Its contract covers the fresh case and, when the id is not fresh, the overwrite.
- The Cloudflare KV API and JSON encoding are not modelled. The namespace is a map of items, and serialisation is the identity.
- IEEE-754 doubles are not modelled. The scores are exact reals, so, for example, the double rounding of 1.5 × 1 × 0.1 is not captured.
- Backend.NewItem: a JSON body can carry keys that are not WishItem fields. The spread would copy them into the stored object, but the model's items have fixed fields. Only a supplied `id` and `score` are modelled.
- Frontend.ToNumber: this covers `Number` only on strings of decimal digits, which include every value the desire-level options render. Whitespace, signs, decimal points, exponents, radix prefixes and `Infinity` give NaN here, unlike in JavaScript.
- React rendering, JSX, the Japanese labels, CSS and the `useEffect` load of the list are not modelled, because they are UI.
- The inline `onChange` setters of the add form only assign one form field each. They are not modelled separately.
- Each handler closes over the state of the render it came from. The model applies each response to the state current when it arrives, so interleavings of overlapping requests (a lost append) are not captured.
- Values outside the declared types are not modelled. For example, the PUT response could carry a desireLevel above 3, and `'☆'.repeat(3 - desireLevel)` would then throw a RangeError.
- Page ids are taken to be whole numbers (`int`), while the code types them as `number`. Ids are only compared with `===`, so no handler depends on this.
