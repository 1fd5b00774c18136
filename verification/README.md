# Admin back-office core: a Dafny model

This project models the four pieces of the cosmetics-catalog admin panel
that have behaviour that can be stated exactly. The panel itself is a
Next.js/React client over a hosted backend.

- **Public-URL parsing** (`src/lib/storageUtils.ts`). `pathFromPublicUrl`
  finds the first `/storage/v1/object/public/` marker in a storage URL and
  returns the text after it, provided that text holds a `/`.
  `deleteByPublicUrl` splits that text into a bucket (the first segment) and
  an object path (the remaining segments re-joined with `/`). These are the
  bucket and path it asks storage to remove. Module `StorageUtils`.
- **Category picker** (`src/components/CategoryPicker.tsx`). This covers the
  selection list with its `isChecked`/`toggle` in single and multi mode, the
  `roots` filter, and the `byParent` grouping. `byParent` builds a map from
  parent id to children in input order, then sorts every group by name.
  Module `CategoryPicker`, plus the shared order-preserving filter in
  module `Lists`.
- **Admin guard** (`src/components/AdminGuard.tsx`). This is the
  `ok : null | false | true` state, the fail-closed `check`, the re-checks on
  auth-state events and the choice of what to render. Module `AdminGuard`,
  class `Guard`.
- **Login form** (`src/components/LoginForm.tsx`). This covers the
  `canSubmit` gate over the trimmed email and the raw password, and the
  `onSubmit` sequence over `loading` with its `finally`. Module `LoginForm`,
  class `Form`.

The backend is represented by inputs. The profile lookup answer, the sign-in
answer and the session answer after sign-in are all parameters; the sign-in
and session answers may also be a rejected promise. The
list of categories that the picker fetches is an input. Calls to the router,
to `alert`, to sign-in and to the profile query are recorded in logs on the
objects. The `remove` request to storage is the value that
`DeleteByPublicUrl` returns.

The round trip of `pathFromPublicUrl` needs a condition on what precedes the
marker. It is not enough that the prefix lacks the marker. The marker begins
and ends with `/`, so a prefix ending in `/storage/v1/object/public` creates
an earlier, overlapping occurrence. `PathRoundTrip` therefore requires that
the marker does not occur in the prefix followed by the marker minus its last
character. `StraddlingPrefixBreaksRoundTrip` exhibits such a prefix.

## Model

| member | source | states |
|---|---|---|
| `StorageUtils.IndexOf` | src/lib/storageUtils.ts:5-9 | `indexOf`: the result is an occurrence of the pattern and no earlier index is one; None means there is no occurrence at all |
| `StorageUtils.PathFromPublicUrl` | src/lib/storageUtils.ts:4-13 | null when there is no marker, null when the text after the first marker has no `/`; otherwise exactly that text. Marker plus result is a suffix of the URL, and the result contains `/` |
| `StorageUtils.PathRoundTrip` | src/lib/storageUtils.ts:4-13 | when the marker does not straddle the prefix, the path of `prefix + marker + b + "/" + p` is `b + "/" + p` |
| `StorageUtils.StraddlingPrefixBreaksRoundTrip` | src/lib/storageUtils.ts:5-12 | a prefix free of the marker can still combine with it into an earlier occurrence, so the round trip then fails |
| `StorageUtils.Split` | src/lib/storageUtils.ts:18 | `split('/')` yields at least one segment, and no segment contains `/` |
| `StorageUtils.JoinEnds` | src/lib/storageUtils.ts:19 | `Join`, which is `join('/')`: the first segment starts the result, the last one ends it, and with two or more segments a `/` follows the first |
| `StorageUtils.JoinSplit` | src/lib/storageUtils.ts:18-19 | `split('/')` followed by `join('/')` gives back the original text |
| `StorageUtils.SplitJoin` | src/lib/storageUtils.ts:18-19 | joining `/`-free segments and splitting again gives back the segments |
| `StorageUtils.DeleteByPublicUrl` | src/lib/storageUtils.ts:15-21 | no removal exactly when the path is null or empty; otherwise the bucket has no `/` and bucket + `/` + object path is the parsed path |
| `StorageUtils.DeleteRoundTrip` | src/lib/storageUtils.ts:15-20 | deleting by the public URL of bucket `b` (no `/`) and object `p` removes exactly `p` from `b` |
| `Lists.Filter` | src/components/CategoryPicker.tsx:31 | `Array.prototype.filter`, used for the roots and, at line 51, for unchecking: no longer than the input; every element kept is from the input and satisfies the test; every input element that satisfies it is kept |
| `Lists.FilterConcat` | src/components/CategoryPicker.tsx:31 | filtering a concatenation filters each part, in order |
| `Lists.FilterMultiset` | src/components/CategoryPicker.tsx:31 | an element that passes the test is kept as often as in the input; one that fails it is dropped |
| `CategoryPicker.IsChecked` | src/components/CategoryPicker.tsx:46 | `value.includes(id)`: true iff some position of the selection holds the id |
| `CategoryPicker.RemoveAll` | src/components/CategoryPicker.tsx:51 | `value.filter(x => x !== id)` removes every occurrence of the id and keeps every other id as often as before |
| `CategoryPicker.Toggle` | src/components/CategoryPicker.tsx:46-53 | the id's checked state flips. Single mode leaves at most this id. Multi mode: unchecking removes every occurrence and shortens the list; checking appends the id at the end; other ids keep their counts |
| `CategoryPicker.ToggleKeepsOthers` | src/components/CategoryPicker.tsx:51 | multi mode: with the toggled id taken out, the old and new selections are the same list, so other ids keep membership and relative order |
| `CategoryPicker.ToggleTwiceRestores` | src/components/CategoryPicker.tsx:51 | multi mode: toggling an unchecked id twice returns exactly the original selection |
| `CategoryPicker.Roots` | src/components/CategoryPicker.tsx:31 | the result holds only depth-0 categories from the input, and holds every one of them |
| `CategoryPicker.RootsInOrder` | src/components/CategoryPicker.tsx:31 | roots of a concatenation are the roots of each part in order, so input order is preserved |
| `CategoryPicker.RootsMultiplicity` | src/components/CategoryPicker.tsx:31 | a depth-0 category appears among the roots as often as in the input; any other category does not appear |
| `CategoryPicker.Children` | src/components/CategoryPicker.tsx:35-38 | every category gathered under `k` names `k` as its parent; each category naming `k` appears as often as in the input, and no other category appears |
| `CategoryPicker.ParentOrder` | src/components/CategoryPicker.tsx:33-40 | the keys in the order the map meets them: exactly the named parent ids, each once |
| `CategoryPicker.ParentOrderExtends` | src/components/CategoryPicker.tsx:33-40 | keys are only added at the end: the order for a prefix of the input is a prefix of the order for the whole |
| `CategoryPicker.Insert` | src/components/CategoryPicker.tsx:42 | inserting into a group adds exactly that category |
| `CategoryPicker.SortByName` | src/components/CategoryPicker.tsx:42 | sorting a group returns a reordering of it |
| `CategoryPicker.InsertSorted` | src/components/CategoryPicker.tsx:42 | inserting into a group sorted by a total preorder on names keeps it sorted |
| `CategoryPicker.SortByNameSorted` | src/components/CategoryPicker.tsx:42 | the sorted group is ordered by name under any total preorder |
| `CategoryPicker.FileUnderParent` | src/components/CategoryPicker.tsx:34-39 | the `forEach` callback: a category without a parent changes nothing; otherwise it is appended to its parent's group, which starts empty when the key is new, and a new key is appended to the key order |
| `CategoryPicker.GroupByParent` | src/components/CategoryPicker.tsx:33-40 | the `forEach`/`push`/`set` pass: keys are exactly the named parent ids, and each group holds that parent's children in input order. The key list is `ParentOrder`: each key once, in insertion order |
| `CategoryPicker.SortGroups` | src/components/CategoryPicker.tsx:42 | visiting the keys in map order sorts every group and leaves the keys unchanged |
| `CategoryPicker.GroupIsSortedChildren` | src/components/CategoryPicker.tsx:32-43 | a sorted group is sorted by name and holds each child of its key as often as the input does, and nothing else |
| `CategoryPicker.ByParent` | src/components/CategoryPicker.tsx:32-44 | keys are exactly the named parent ids. Every group is its parent's children sorted by name. A category with a parent appears under that key as often as in the input; one with no parent appears under no key |
| `AdminGuard.HasUser` | src/components/AdminGuard.tsx:14-15 | `!uid` fails exactly for a missing user id and for the empty string |
| `AdminGuard.Admits` | src/components/AdminGuard.tsx:13-35 | fail closed: a check admits iff the user id is non-empty, the lookup reported no error, and its row has role `admin` |
| `AdminGuard.Render` | src/components/AdminGuard.tsx:54-56 | the placeholder iff `ok` is null, nothing iff `ok` is false, and the children iff `ok` is true |
| `AdminGuard.Guard.constructor` | src/components/AdminGuard.tsx:10 | the guard starts with `ok` null, which renders the checking placeholder, and has no redirects or lookups yet |
| `AdminGuard.Guard.Check` | src/components/AdminGuard.tsx:13-35 | `ok` becomes the check's outcome. A denial appends exactly one `/login` redirect and an admission appends none. The profile is looked up only when there is a user id |
| `AdminGuard.Denials` | src/components/AdminGuard.tsx:17-31 | a series of checks redirects at most once per check, always to `/login` |
| `AdminGuard.RunGuard` | src/components/AdminGuard.tsx:37-45 | after the mount check and each event's re-check, the view is decided by the latest check alone (placeholder if none ran), and the redirects are one `/login` per denial |
| `AdminGuard.AdminThenSignOut` | src/components/AdminGuard.tsx:39-45 | an admin session followed by a sign-out event ends rendering nothing, with a single redirect |
| `LoginForm.TrimStart` | src/components/LoginForm.tsx:13 | the leading half of `trim` removes a prefix made only of whitespace, and the result does not start with whitespace |
| `LoginForm.TrimEnd` | src/components/LoginForm.tsx:13 | the trailing half of `trim` removes a suffix made only of whitespace, and the result does not end with whitespace |
| `LoginForm.Trim` | src/components/LoginForm.tsx:13 | the trimmed text is the input with a whitespace prefix and a whitespace suffix cut off. It neither starts nor ends with whitespace, and it is empty iff the input is blank |
| `LoginForm.TrimOfBlank` | src/components/LoginForm.tsx:13 | trimming leaves nothing exactly of a blank input |
| `LoginForm.TrimIgnoresPadding` | src/components/LoginForm.tsx:13 | whitespace around a text does not change its trim |
| `LoginForm.TrimIdempotent` | src/components/LoginForm.tsx:13 | trimming twice is trimming once |
| `LoginForm.Utf16Length` | src/components/LoginForm.tsx:13 | `length` counts UTF-16 code units: between one and two per character, and exactly one per character iff no character lies beyond U+FFFF |
| `LoginForm.Utf16LengthConcat` | src/components/LoginForm.tsx:13 | the length of a concatenation is the sum of the lengths; a single character has length two iff it lies beyond U+FFFF, one otherwise |
| `LoginForm.CanSubmit` | src/components/LoginForm.tsx:13 | the gate passes iff the trimmed email is longer than three UTF-16 code units and the password is not empty. Hence a passing form has a non-blank email of at least two characters after trimming and a non-empty password; a trimmed email of more than three characters with a non-empty password always passes; when the trimmed email has no character beyond U+FFFF, the gate passes iff it has more than three characters and the password is not empty |
| `LoginForm.AstralCharacterCountsTwice` | src/components/LoginForm.tsx:13 | three characters, one of them beyond the Basic Multilingual Plane, have length four and pass the email test |
| `LoginForm.CanSubmitSeesTrimmedEmail` | src/components/LoginForm.tsx:13 | `canSubmit` ignores whitespace around the email and never passes a blank email; a password of spaces passes, since it is not trimmed |
| `LoginForm.Form.constructor` | src/components/LoginForm.tsx:9-11 | empty fields, `loading` false, and no calls made |
| `LoginForm.Form.SetEmail` | src/components/LoginForm.tsx:74 | typing sets the email and nothing else |
| `LoginForm.Form.SetPassword` | src/components/LoginForm.tsx:83 | typing sets the password and nothing else |
| `LoginForm.Form.OnSubmit` | src/components/LoginForm.tsx:15-55 | a blocked submit (cannot submit, or already loading) changes nothing. Otherwise there is exactly one sign-in call, made while `loading` is true, and `loading` is false at the end, even when a call rejects. The rejection is passed on exactly when sign-in or the following `getSession` rejects, with no alert and no navigation. A sign-in error alerts its message and does not navigate. A success with no session alerts and does not navigate. A success with a session calls `replace('/')` and then `refresh()` |
| `LoginForm.Form.Attempt` | src/components/LoginForm.tsx:19-54 | the part of `onSubmit` past its guard: one sign-in call made while loading, `loading` false at the end, rejection iff a call rejects, the alert and the navigation of each outcome |

## Left out

- The category fetch (src/components/CategoryPicker.tsx:18-29) and the loading, empty and tree rendering (lines 55-114) are not modelled. The categories are an input.
- The Polish collation of `localeCompare(..., 'pl', {sensitivity: 'base'})` is replaced by an arbitrary total preorder on names, passed to `ByParent`. The sort's stability is not proved.
- `CategoryPicker.SortGroups`: JavaScript sorts each group array in place. The model replaces the map's entry with the sorted sequence. Aliasing between the map and the arrays is not captured; nothing else holds those arrays.
- `AdminGuard.RunGuard`: checks complete one at a time. Overlapping `check` calls that resolve out of order are not modelled. Neither is the cleanup function that the async block returns, which never reaches `useEffect` (src/components/AdminGuard.tsx:37-51).
- The `getSession()` call, the auth subscription and the `console.log` of the lookup are not modelled. The user id and the lookup answer are inputs of `Check`, and the lookup answer is supplied even when no query is made.
- `LoginForm.Form.OnSubmit`: the 50 ms `setTimeout` fallback with its `window.location` check (src/components/LoginForm.tsx:46-51) is left out as timing and browser I/O. `preventDefault` and the `console.log` calls are left out too. Only the two awaited calls are modelled as able to reject; a throw from `alert` or from the router calls is not.
- Two submits in flight at once are not modelled. Each submit runs to completion before the next one starts.
- The login form's rendering is not modelled: the `forbidden` notice and the disabled state of the button (src/components/LoginForm.tsx:57-95).
- The storage `remove` call itself, and its result, are not modelled. `DeleteByPublicUrl` returns the request it would make.
- The backend client (src/lib/supabaseClient.ts) and the presentational components are not part of this model. Neither are the product, brand, ingredient, account and bug screens under src/app.
- `AdminGuard.Guard.Check`: a rejected profile query (src/components/AdminGuard.tsx:21-25) is not modelled; the lookup answer always carries an error flag and data. In the source such a rejection makes `check` throw before `setOk`, so `ok` keeps its previous value (possibly true) and no redirect is issued; at mount (lines 37-40) the async block also stops there, so the auth subscription is never made and the placeholder stays.
- Strings are sequences of Unicode scalar values, so inputs are taken to be well-formed UTF-16: a JavaScript string holding a lone surrogate has no counterpart in `Trim`, `Utf16Length`, `IndexOf` or the slicing in `PathFromPublicUrl`.
- The re-checks on auth events never reset `ok` to null. The checking placeholder is shown only before the first check completes; afterwards the guard keeps its previous outcome until the next check completes.
