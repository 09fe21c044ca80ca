# Call-log store

A model of the call-log store of a mobile cold-calling app. The store keeps every
logged call in one slot of the device's key-value storage (AsyncStorage), under the
key `@cold_call_logs`, as the JSON text of one list of call records. It has four
operations: `getCallLogs` reads the list, `saveCallLog` puts a record at the front
and writes the whole list back, `updateCallLog` replaces the first record with the
same `id` and writes back, and `searchByPhoneNumber` finds, for each distinct phone
number that contains the query, that number's first record.

Files:

- `wrappers.dfy`, module `Wrappers`: `Option` and `Outcome` (a call that either passes or throws).
- `call.dfy`, module `CallTypes`: the `CallStatus` enum (four values) and the five-field `CallLog` record.
- `storage.dfy`, module `Storage`: the stored text, the functions that say what each operation
  leaves in storage, the lemmas about them, and the class `CallLogStore`, whose field
  `device` is the device's key-value storage and whose methods are the four operations.

How the model handles I/O and JSON:

- JSON is abstract. `Text` is either `Serialized(records)` (what `JSON.stringify` wrote)
  or `Malformed` (text `JSON.parse` rejects). `Parse(Stringify(l)) == Some(l)`.
- Device I/O outcomes are parameters. `readFault` means `AsyncStorage.getItem` throws.
  `getCallLogs` catches that and returns `[]`. `writeFault` means `AsyncStorage.setItem`
  throws. `saveCallLog` and `updateCallLog` rethrow it, here as `Fail(WriteFailed)`.
- Each operation runs as one atomic step.

Consequences the lemmas make explicit:

- `getCallLogs` returns `[]` in three cases: the key was never written, the text does not
  parse, or the read throws. A caller cannot tell these apart. So `saveCallLog` after any of
  them stores exactly `[r]` and the earlier contents are lost (`SaveOverUnreadable`).
- `updateCallLog` with no matching `id` never writes. So it cannot fail on a write fault,
  and unparsable text is left as it was (`UpdateMissIsNoOp`, `UpdateCallLog`).
- Ids are not checked by the store. The lemmas show that caller-supplied unique ids stay
  unique (`SaveKeepsDistinctIds`, `UpdateKeepsDistinctIds`).

Naming: the record's `label` field is called `callLabel`, because `label` is a reserved word in
Dafny. The statuses `'Not Answered'` and `'Follow Up'` are `NotAnswered` and `FollowUp`. The
source strings are kept in `StatusLabel`.

Behaviour of the code that the model keeps:

- A read that fails or does not parse gives `[]`. It is not reported as an error.
- The status has exactly the four values of the union type in `types/call.ts:1`.
- Search matches a substring of the phone number, anywhere in it.

## Model

| member | source | states |
|---|---|---|
| CallTypes.StatusFromLabel | types/call.ts:1 | a string names a status exactly when it is one of the four union literals, and the status it names has that literal as its label |
| CallTypes.StatusesExhaustive | types/call.ts:1 | there are exactly four statuses with four distinct labels, and each label reads back as its own status |
| CallTypes.StatusLabel | types/call.ts:1 | the string literal of the union type that stands for each status, as stored in the JSON |
| Storage.Stringify | services/storage.ts:21 | JSON.parse of what JSON.stringify wrote gives back the same list |
| Storage.Parse | services/storage.ts:10 | JSON.parse of the stored text: the list for text the store wrote, nothing for text that does not parse |
| Storage.Load | services/storage.ts:7-15 | getCallLogs yields `[]` when the read throws, when the key was never written and when the text does not parse |
| Storage.LoadAfterWrite | services/storage.ts:9-10 | the list last written under the key is read back exactly |
| Storage.CallLogStore.GetCallLogs | services/storage.ts:7-15 | the method returns what `Load` says for the current storage, and never fails |
| Storage.AfterSave | services/storage.ts:19-22 | a successful save sets the store's key and leaves every other storage key as it was |
| Storage.SavePrepends | services/storage.ts:19-22 | after a save the list is `[r]` followed by the old list: one longer, `r` whole at index 0 (all five fields, timestamp included), the old records after it in order |
| Storage.SaveOverUnreadable | services/storage.ts:9-22 | when the earlier contents cannot be read or parsed, a save leaves exactly `[r]` |
| Storage.SaveAllNewestFirst | services/storage.ts:17-27 | a run of saves leaves the saved records newest first, in front of the earlier list |
| Storage.SaveKeepsDistinctIds | services/storage.ts:19-20 | saving a record with a new `id` into a list with distinct ids keeps the ids distinct |
| Storage.CallLogStore.SetItem | services/storage.ts:22 | a storage write either stores the value under the key, or throws and changes nothing |
| Storage.CallLogStore.SaveCallLog | services/storage.ts:17-27 | a write failure is passed on as `Fail(WriteFailed)` and leaves storage unchanged; otherwise the storage becomes `AfterSave` of the old storage |
| Storage.FindIndex | services/storage.ts:50 | findIndex on `id` gives the first index whose record has the `id`, or -1 exactly when no record has it |
| Storage.UpdateWrites | services/storage.ts:50-51 | the `logIndex !== -1` test: whether some record of the list read has the update's `id`, so that a write happens |
| Storage.AfterUpdate | services/storage.ts:47-55 | an update with no matching `id` leaves storage unchanged; no key other than the store's is touched |
| Storage.UpdateReplacesFirstMatch | services/storage.ts:50-54 | with a match, the first index with that `id` gets `u` whole; the length is kept and every other index keeps its record |
| Storage.UpdateMissIsNoOp | services/storage.ts:50-55 | when no record has `u.id` nothing is written and storage stays as it was |
| Storage.UpdateSameIdOverwrites | services/storage.ts:50-52 | matching is on `id` alone: a second update with the same `id` overwrites the first, whatever the other fields |
| Storage.UpdateIdempotent | services/storage.ts:50-55 | the same update applied twice gives the same storage as applying it once |
| Storage.UpdateKeepsDistinctIds | services/storage.ts:50-52 | an update keeps the ids of the list distinct |
| Storage.CallLogStore.UpdateCallLog | services/storage.ts:47-60 | a write failure is rethrown only when there is a match, leaving storage unchanged; otherwise storage becomes `AfterUpdate` of the old storage |
| Storage.IncludesIffOccurs | services/storage.ts:36 | `includes` holds exactly when the query occurs at some index of the phone number |
| Storage.Includes | services/storage.ts:36 | `String.prototype.includes`: whether the query occurs in the phone number, always for an empty query |
| Storage.FirstMatches | services/storage.ts:34-41 | the forEach and Map dedup: each record whose number contains the query and is the first with that number, in list order |
| Storage.Search | services/storage.ts:31-41 | what the search returns for a list: `[]` when the query is empty (the `!query` test), otherwise `FirstMatches` |
| Storage.FirstMatchesNumbers | services/storage.ts:34-39 | the numbers kept so far are exactly the matching numbers seen so far, so the Map lookup means "seen earlier in the list" |
| Storage.FirstMatchesInclude | services/storage.ts:36 | every record found contains the query in its phone number |
| Storage.FirstMatchesDistinct | services/storage.ts:36-37 | no two records found share a phone number |
| Storage.FirstMatchesSubsequence | services/storage.ts:34-41 | the records found are a subsequence of the list, comparing records by value |
| Storage.FirstMatchesInFirstSeenOrder | services/storage.ts:34-41 | there are strictly increasing positions, one per record found, each the first record with its number and containing the query, covering every such position; so the result is the first occurrences in first-seen order even when a record value repeats |
| Storage.FirstMatchesComplete | services/storage.ts:34-39 | every record that contains the query and is the first with its phone number is found |
| Storage.FirstMatchesSound | services/storage.ts:34-39 | every record found is the first record in the list with its phone number |
| Storage.SearchEmptyQuery | services/storage.ts:32 | an empty query finds nothing, whatever the store holds |
| Storage.CallLogStore.SearchByPhoneNumber | services/storage.ts:29-46 | the forEach loop over a Map (its keys, plus its values in insertion order) returns `[]` for an empty query and otherwise exactly the first matching record of each distinct number, in list order |
| Storage.TwoCallsScenario | services/storage.ts:17-54 | two saves give `[B, A]`; a search for "555" gives `[B, A]`; editing A's status gives `[B, A']` with only the status changed |

## Left out

- JSON text and AsyncStorage are not modelled concretely. Stored text is either what the store wrote or text that does not parse.
- Stored text that parses but is not a list of records is not modelled. Examples: text written by something else, or `"null"`. `JSON.parse` would return such a value unchecked.
- The `catch` in `searchByPhoneNumber` is not modelled. With well-typed records nothing in that block throws, because `getCallLogs` never throws.
- `timestamp` is an unbounded integer (epoch milliseconds), not a double. The store only carries it, so this changes nothing here.
- Strings are Dafny character sequences. JavaScript's UTF-16 code units are not modelled separately.
- A failed `setItem` is assumed to leave the slot unchanged. A partial write is not modelled.
- `console.error` logging is left out, because it has no effect on behaviour.
- async interleaving is left out. So is the lost update when two read-modify-write calls overlap. Each operation is one atomic step.
- The screens and the call-log modal are out of scope: `components/CallLogModal.tsx`, `app/(tabs)/index.tsx` and `app/(tabs)/history.tsx`. They do dialing, id generation and display.
