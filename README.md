# PDF page editor front end — verified model of its two screens

This project models, in Dafny, the logic of the two client screens of a small
PDF page-deletion web app:

* the **home screen** (`src/app/page.tsx`): the user chooses a PDF, the
  screen learns its page count, shows one "Keep this page" checkbox per page,
  and on "Delete Pages and Download" sends the file together with the list of
  kept page indices (`newOrder`) to the edit endpoint;
* the **login / sign-up screen** (`src/app/login/page.tsx`): two fields are
  validated (blank-after-trim checks and the email pattern `\S+@\S+\.\S+`),
  the resulting error map gates the request, and a switch chooses between the
  login and the sign-up endpoint.

Modules:

| file | module | what it holds |
|---|---|---|
| `wrappers.dfy` | `Wrappers` | `Option`, for the screens' `null`/`undefined` values |
| `selection.dfy` | `Selection` | the keep-set `checkedPages` as a `seq<int>`: initial range, filter-out / append toggle, checkbox view, and their laws |
| `order_payload.dfy` | `OrderPayload` | `JSON.stringify` of the index array (the `newOrder` field) with a decoder and the round trip |
| `home.dfy` | `Home` | class `HomeScreen` with the component state (`pdfFile`, `error`, `showPDF`, `numPages`, `checkedPages`, `buttonText`) and its handlers; the home screen's redirect predicate |
| `login_form.dfy` | `LoginForm` | whitespace, `trim`, the email pattern, the error map, class `LoginScreen` with its handlers, and the redirect predicate |

Each React handler is one atomic state transition: a method of the screen's
class with a `modifies` clause naming exactly the fields the handler sets.
The selection transitions themselves are pure functions over sequences
(`Selection.Toggle`, `Selection.AllPages`), and the methods are specified by
them.

Behaviour of the code worth knowing:

* **Order of `newOrder`.** A page that is re-checked is appended at the end
  (`page.tsx:60`), and the array is sent as it is (`page.tsx:69`). The order
  sent is the order of the clicks: from `[0, 1, 2]`, unchecking and
  re-checking page 0 sends `[1,2,0]` (`Selection.ToggleOrderExample`,
  `OrderPayload.StringifyExample`). Two histories with the same checked boxes
  can send different arrays (`Selection.OrderFollowsHistory`).
* **Toggling twice.** It restores which pages are kept, but restores the exact
  array only for a page that was unchecked; a checked page moves to the end
  (`Selection.ToggleTwice`).
* **Empty selection.** Unchecking every page is allowed and sends `"[]"`; the
  client has no special case for it.
* **Credential check.** The delete guard only asks that the token is not
  `null`/`undefined` (`page.tsx:66`); the values `""` and `"null"`, which both
  screens treat as "logged out", pass it (`Home.DeleteGuardAcceptsLoggedOutTokens`).
* **Busy state.** The button reads "Loading" while a request is pending but is
  not disabled; and when the guard fails the label stays "Loading"
  (`Home.HomeScreen.HandleDeleteClick`).

Whitespace: `String.prototype.trim` and the regular-expression class `\s`
use the same characters, ECMAScript's WhiteSpace and LineTerminator code
points; `LoginForm.IsSpace` lists them (tab, LF, VT, FF, CR, space, U+00A0,
U+1680, U+2000–U+200A, U+2028, U+2029, U+202F, U+205F, U+3000, U+FEFF).
`RegexMatches` states the regular expression by its language (some substring
is `x@y.z` with `x`, `y`, `z` non-empty runs of non-whitespace);
`EmailPatternTest` is the search the model runs; the two are proved equal.

## Model

| member | source | states |
|---|---|---|
| `Selection.AllPages` | src/app/page.tsx:32 | the initial array has length `numPages` and holds index `i` at position `i` |
| `Selection.AllPagesIsFullSelection` | src/app/page.tsx:30-33 | after loading, the array is duplicate-free, holds exactly the pages `0..n-1`, and every checkbox is checked |
| `Selection.Without` | src/app/page.tsx:58 | `filter` keeps exactly the elements different from the page, and never grows the array |
| `Selection.WithoutAbsent` | src/app/page.tsx:58 | filtering out an index that is not present leaves the array unchanged |
| `Selection.WithoutKeepsDistinct` | src/app/page.tsx:58 | filtering keeps the array duplicate-free |
| `Selection.WithoutAt` | src/app/page.tsx:56-58 | in a duplicate-free array, filtering out the element at position `k` deletes that position and keeps the others in their order |
| `Selection.WithoutAppend` | src/app/page.tsx:58 | filtering distributes over concatenation |
| `Selection.Toggle` | src/app/page.tsx:54-63 | after a toggle, an index is present iff it was present and is not the toggled page, or was absent and is the toggled page |
| `Selection.TogglePresent` | src/app/page.tsx:56-58 | in a duplicate-free array, toggling a checked page removes it, shortens the array by one, and keeps every other page in its relative order |
| `Selection.ToggleAbsent` | src/app/page.tsx:59-60 | toggling an unchecked page appends it: the length grows by one, the old array is the prefix, and the page is last |
| `Selection.ToggleKeepsValid` | src/app/page.tsx:54-63 | a toggle of a rendered page (`0 <= p < numPages`) keeps the array duplicate-free and within `[0, numPages)` |
| `Selection.ToggleTwice` | src/app/page.tsx:54-63 | toggling twice restores every page's membership; the array itself is restored when the page was absent, and when it was present (duplicate-free array) the page is deleted from its position and re-appended at the end |
| `Selection.IsChecked` | src/app/page.tsx:114 | a checkbox is checked iff its index is in the array (`includes`); its laws are stated by `ToggleFlipsOneCheckbox` and `ValidSelectionListsCheckedPages` |
| `Selection.CheckboxStates` | src/app/page.tsx:106-115 | the `checked` values of the `numPages` rendered checkboxes; `AllPagesIsFullSelection`, `ToggleFlipsOneCheckbox` and `OrderFollowsHistory` state its properties |
| `Selection.ToggleFlipsOneCheckbox` | src/app/page.tsx:114-115 | a click flips the `checked` state of the clicked page's checkbox and of no other |
| `Selection.ValidSelectionListsCheckedPages` | src/app/page.tsx:106-115 | under the invariant the array holds each checked page exactly once and no other value |
| `Selection.TogglesKeepValid` | src/app/page.tsx:106-115 | any sequence of clicks on rendered checkboxes keeps the invariant |
| `Selection.ToggleParity` | src/app/page.tsx:54-63 | after a sequence of clicks, a page is present iff its presence before agrees with an even number of clicks on it |
| `Selection.ReachableSelection` | src/app/page.tsx:30-63 | every reachable array is a valid selection, and a page is kept iff it is in range and was clicked an even number of times |
| `Selection.ToggleOrderExample` | src/app/page.tsx:60 | from `[0, 1, 2]`, unchecking and re-checking page 0 gives `[1, 2, 0]` |
| `Selection.OrderFollowsHistory` | src/app/page.tsx:69 | two histories with identical checkbox states produce different `newOrder` arrays |
| `OrderPayload.NatToDigits` | src/app/page.tsx:69 | the decimal text of a number has no leading zero and is one digit exactly for numbers below ten |
| `OrderPayload.NumberToJson` | src/app/page.tsx:69 | a number's text is non-empty and contains no comma |
| `OrderPayload.SplitCommas` | src/app/page.tsx:69 | splitting at commas yields at least one piece and pieces without commas |
| `OrderPayload.DigitsRoundTrip` | src/app/page.tsx:69 | reading back the decimal digits of `n` gives `n` |
| `OrderPayload.DigitsCanonical` | src/app/page.tsx:69 | a digit string without leading zero is the decimal text of its value |
| `OrderPayload.NumberRoundTrip` | src/app/page.tsx:69 | one array element is read back exactly |
| `OrderPayload.NumberCanonical` | src/app/page.tsx:69 | an element is read only from the text stringify writes for it |
| `OrderPayload.SplitJoin` | src/app/page.tsx:69 | splitting comma-joined comma-free pieces gives the pieces back |
| `OrderPayload.JoinSplit` | src/app/page.tsx:69 | joining the pieces of a split gives the text back |
| `OrderPayload.Stringify` | src/app/page.tsx:69 | `JSON.stringify` of the integer array; `StringifyRoundTrip`, `StringifyCanonical` and `StringifyExample` state its properties |
| `OrderPayload.ParseOrder` | src/app/page.tsx:69 | the decoder of the `newOrder` text, the inverse of `Stringify` by `StringifyRoundTrip` and `StringifyCanonical` |
| `OrderPayload.StringifyRoundTrip` | src/app/page.tsx:69 | decoding `JSON.stringify(checkedPages)` gives back exactly `checkedPages`, in the same order |
| `OrderPayload.StringifyCanonical` | src/app/page.tsx:69 | every text the decoder accepts is the stringify output of what it returns, so each array has one encoding |
| `OrderPayload.StringifyExample` | src/app/page.tsx:69 | the array `[1, 2, 0]` is sent as the text `[1,2,0]` |
| `Home.HomeScreen.constructor` | src/app/page.tsx:18-24 | the initial state: no file, no error, form shown, no page count, empty array, button label "Delete Pages and Download" |
| `Home.HomeScreen.HandleFileChange` | src/app/page.tsx:25-29 | choosing a file (or none) stores it and clears the error |
| `Home.HomeScreen.OnDocumentLoadSuccess` | src/app/page.tsx:30-33 | loading sets `numPages` to `n` and the array to `[0, ..., n-1]`, re-establishing the invariant |
| `Home.HomeScreen.HandleSubmit` | src/app/page.tsx:35-43 | with no file the error becomes "PDF file is required" and `showPDF` is unchanged; with a file `showPDF` becomes true |
| `Home.HomeScreen.HandleCheckboxChange` | src/app/page.tsx:54-63 | the array becomes its toggle by the clicked page; a click on a rendered page keeps the invariant |
| `Home.HomeScreen.HandleDeleteClick` | src/app/page.tsx:64-88 | a request carrying the file, `JSON.stringify(checkedPages)` and the token is produced iff a file and a non-null token exist; the label is "Loading" and comes back only in that case |
| `Home.RedirectsToLogin` | src/app/page.tsx:48 | the home screen sends the user to login iff the token is missing, empty or the text `"null"`; `LoginForm.RedirectGuardsComplement` relates it to the login screen's test |
| `Home.CanSendDelete` | src/app/page.tsx:66 | the delete guard: a file and a non-null token; `HandleDeleteClick` and `DeleteGuardAcceptsLoggedOutTokens` state what it admits |
| `Home.DeleteGuardAcceptsLoggedOutTokens` | src/app/page.tsx:66 | the delete guard passes for every signed-in token and also for the logged-out values `""` and `"null"` |
| `LoginForm.IsSpace` | src/app/login/page.tsx:42-44 | the whitespace of `trim` and of `\s`: ECMAScript WhiteSpace and LineTerminator code points, used by `Trim` and the pattern alike |
| `LoginForm.Trim` | src/app/login/page.tsx:42 | `trim()`: `TrimStart` then `TrimEnd`, each characterized by its own ensures |
| `LoginForm.IsBlank` | src/app/login/page.tsx:42-47 | `!value.trim()`; `BlankIffAllSpace` states that it holds iff every character is whitespace |
| `LoginForm.RegexMatches` | src/app/login/page.tsx:44 | the language of the unanchored `\S+@\S+\.\S+`: some substring is `x@y.z` with `x`, `y`, `z` non-empty and whitespace-free |
| `LoginForm.EmailPatternTest` | src/app/login/page.tsx:44 | `regex.test(email)` as a search for the `@` and the `.`; `EmailPatternTestIsRegex` proves it equal to `RegexMatches` |
| `LoginForm.Validate` | src/app/login/page.tsx:41-49 | the `newErrors` map; `EmailErrorCases`, `PasswordErrorCases`, `SubmitGate` and `BothErrorsAtOnce` state its cases |
| `LoginForm.FormErrors.Keys` | src/app/login/page.tsx:51 | `Object.keys(newErrors)`: the fields that carry a message; `SubmitGate` states when it is empty |
| `LoginForm.RedirectsHome` | src/app/login/page.tsx:33 | the login screen sends the user home iff the token is non-empty and not the text `"null"`; `RedirectGuardsComplement` states it is the negation of `Home.RedirectsToLogin` |
| `LoginForm.TrimStart` | src/app/login/page.tsx:42 | the result is a suffix that does not start with whitespace, and every removed character is whitespace |
| `LoginForm.TrimEnd` | src/app/login/page.tsx:42 | the result is a prefix that does not end with whitespace, and every removed character is whitespace |
| `LoginForm.BlankIffAllSpace` | src/app/login/page.tsx:42 | `!value.trim()` holds iff every character is whitespace |
| `LoginForm.PatternTestFindsRegexMatch` | src/app/login/page.tsx:44 | a match found by the search is a substring in the language of `\S+@\S+\.\S+` |
| `LoginForm.RegexMatchFoundByPatternTest` | src/app/login/page.tsx:44 | a substring in the pattern's language is found by the search |
| `LoginForm.EmailPatternTestIsRegex` | src/app/login/page.tsx:44 | the search decides exactly the unanchored regular expression |
| `LoginForm.RegexIgnoresSurroundingText` | src/app/login/page.tsx:44 | any text, whitespace included, before and after a match still matches |
| `LoginForm.PatternIsNotBlank` | src/app/login/page.tsx:42-45 | a text containing the pattern is never blank |
| `LoginForm.EmailErrorCases` | src/app/login/page.tsx:42-46 | "Email is required" iff the email is all whitespace (format then unchecked); "Invalid email format" iff not blank and the pattern does not occur; no email error iff the pattern occurs |
| `LoginForm.PasswordErrorCases` | src/app/login/page.tsx:47-49 | "Password is required" iff the password is all whitespace; otherwise no password error |
| `LoginForm.SubmitGate` | src/app/login/page.tsx:41-51 | the error map has no keys iff the email matches the pattern and the password is not blank |
| `LoginForm.BothErrorsAtOnce` | src/app/login/page.tsx:41-49 | the two checks are independent: blank fields get both messages and both keys |
| `LoginForm.EndpointFor` | src/app/login/page.tsx:53 | the sign-up endpoint is chosen iff `isSignup` holds |
| `LoginForm.LoginScreen.constructor` | src/app/login/page.tsx:14-17 | initial state: empty fields, no errors, login mode |
| `LoginForm.LoginScreen.HandleEmailChange` | src/app/login/page.tsx:20-23 | stores the typed email and replaces the error map by the empty map |
| `LoginForm.LoginScreen.HandlePasswordChange` | src/app/login/page.tsx:25-28 | stores the typed password and replaces the error map by the empty map |
| `LoginForm.LoginScreen.ToggleView` | src/app/login/page.tsx:85-87 | negates `isSignup`, so two switches restore the mode |
| `LoginForm.LoginScreen.HandleSubmit` | src/app/login/page.tsx:39-53 | the stored errors are the validation of the two fields; a request to the mode's endpoint with both values is made iff the map has no keys |
| `LoginForm.RedirectGuardsComplement` | src/app/login/page.tsx:33 | the login screen redirects home (`token && token !== 'null'`) iff the home screen would not redirect to login (`!token \|\| token === 'null'`, src/app/page.tsx:48) |

## Left out

- Network requests: the `fetch` calls, `FormData`, the `Authorization` header, `response.blob()` / `response.json()` and the errors set from a failed or rejected login (`login/page.tsx:53-81`). A request is modelled as the value the handler would send.
- The edit endpoint itself (extracting and reordering pages on the server) is not part of this model: its code is not in these files.
- `localStorage` reads and writes, `router.push`, `handleLogout` and the `ISSERVER` test: browser and framework side effects; only the two redirect predicates are modelled, with the token as a parameter (`None` for `null`).
- PDF rendering with react-pdf (`Document`, `Page`, the worker URL), the unused `pageNumber` state, and all JSX layout; only the checkbox `checked` states are modelled (`Selection.CheckboxStates`).
- The download: Blob URL creation and revocation, the anchor click, and the `Date().getTime()` file name (DOM resources and the wall clock).
- React scheduling, `async`/`await` interleaving and `console.log`: each handler is one atomic step.
- Home.HomeScreen.HandleDeleteClick: the label is restored as soon as the request is produced; the wait for the response between the two, and a rejected `fetch` that would leave "Loading" shown, are not modelled.
- OrderPayload.NumberToJson: writes every integer in decimal; JavaScript writes magnitudes from 1e21 upward in exponent form (`1e+21`) and holds integers exactly only up to 2^53, so the round trip is a property of the model for all integers and of the program for those below both limits; page indices, below `numPages`, stay far under them.
- LoginForm.IsSpace: lists the Unicode space separators of current Unicode versions; a JavaScript engine built on an older Unicode table may differ on U+180E.
- JSON body of the login request: modelled as the two field values, not as the escaped JSON text.
