/** The call-log store (services/storage.ts): one persisted slot of the device's
    key-value storage holds the whole list of call records, serialized as JSON. */
module Storage {
  import opened Wrappers
  import opened CallTypes

  /** The one storage key the store reads and writes. */
  const StorageKey: string := "@cold_call_logs"

  /** The text held under a storage key: either what JSON.stringify produced for a
      list of records, or text that JSON.parse rejects. */
  datatype Text = Serialized(records: seq<CallLog>) | Malformed

  /** The error a failed storage write raises. */
  datatype StorageError = WriteFailed

  /** JSON.stringify of a list of records; reading it back gives the same list. */
  function Stringify(logs: seq<CallLog>): (t: Text)
    ensures Parse(t) == Some(logs)
  {
    Serialized(logs)
  }

  /** JSON.parse: fails on malformed text. */
  function Parse(t: Text): Option<seq<CallLog>>
  {
    match t
    case Serialized(logs) => Some(logs)
    case Malformed => None
  }

  // ---------------------------------------------------------------------------
  // Reading the slot

  /** What getCallLogs yields for the given device storage: the parsed list, or the
      empty list when the read throws, the key was never written or the text does not parse. */
  function Load(device: map<string, Text>, readFault: bool): (logs: seq<CallLog>)
    ensures readFault ==> logs == []
    ensures StorageKey !in device ==> logs == []
    ensures StorageKey in device && device[StorageKey] == Malformed ==> logs == []
  {
    if readFault || StorageKey !in device then []
    else match Parse(device[StorageKey])
      case None => []
      case Some(logs) => logs
  }

  /** Whatever was last written under the key is read back exactly. */
  lemma LoadAfterWrite(device: map<string, Text>, logs: seq<CallLog>)
    ensures Load(device[StorageKey := Stringify(logs)], false) == logs
  {
  }

  // ---------------------------------------------------------------------------
  // Saving a record

  /** The device storage after saveCallLog(r) writes successfully: the key holds
      `r` in front of what getCallLogs returned, and no other key is touched. */
  function AfterSave(device: map<string, Text>, r: CallLog, readFault: bool): (d: map<string, Text>)
    ensures d.Keys == device.Keys + {StorageKey}
    ensures forall k :: k in device && k != StorageKey ==> d[k] == device[k]
  {
    device[StorageKey := Stringify([r] + Load(device, readFault))]
  }

  /** After a save the list is the old one with `r` prepended: one longer, `r` first
      and stored whole (all five fields, the timestamp included), the old records
      after it in their old order. */
  lemma SavePrepends(device: map<string, Text>, r: CallLog, readFault: bool)
    ensures Load(AfterSave(device, r, readFault), false) == [r] + Load(device, readFault)
    ensures |Load(AfterSave(device, r, readFault), false)| == |Load(device, readFault)| + 1
    ensures Load(AfterSave(device, r, readFault), false)[0] == r
    ensures Load(AfterSave(device, r, readFault), false)[1..] == Load(device, readFault)
  {
  }

  /** Saving over text that does not parse, or over a read that throws, discards the
      earlier contents: the key then holds exactly `[r]`. */
  lemma SaveOverUnreadable(device: map<string, Text>, r: CallLog, readFault: bool)
    requires readFault || (StorageKey in device && device[StorageKey] == Malformed)
    ensures AfterSave(device, r, readFault)[StorageKey] == Stringify([r])
    ensures Load(AfterSave(device, r, readFault), false) == [r]
  {
  }

  /** saveCallLog applied to each record of `rs` in turn, every read and write succeeding. */
  function SaveAll(device: map<string, Text>, rs: seq<CallLog>): map<string, Text>
    decreases |rs|
  {
    if rs == [] then device
    else SaveAll(AfterSave(device, rs[0], false), rs[1..])
  }

  function Reversed(rs: seq<CallLog>): seq<CallLog>
    decreases |rs|
  {
    if rs == [] then [] else Reversed(rs[1..]) + [rs[0]]
  }

  /** A run of saves leaves the records most recent first, in front of the old ones. */
  lemma {:induction false} SaveAllNewestFirst(device: map<string, Text>, rs: seq<CallLog>)
    ensures Load(SaveAll(device, rs), false) == Reversed(rs) + Load(device, false)
    decreases |rs|
  {
    if rs != [] {
      var next := AfterSave(device, rs[0], false);
      SaveAllNewestFirst(next, rs[1..]);
      SavePrepends(device, rs[0], false);
      calc {
        Load(SaveAll(device, rs), false);
        Reversed(rs[1..]) + Load(next, false);
        Reversed(rs[1..]) + ([rs[0]] + Load(device, false));
        (Reversed(rs[1..]) + [rs[0]]) + Load(device, false);
      }
    }
  }

  /** No two records of the list share an `id`. */
  predicate DistinctIds(logs: seq<CallLog>)
  {
    forall i, j :: 0 <= i < j < |logs| ==> logs[i].id != logs[j].id
  }

  /** Saving a record whose `id` is new keeps the ids distinct. */
  lemma SaveKeepsDistinctIds(device: map<string, Text>, r: CallLog, readFault: bool)
    requires DistinctIds(Load(device, readFault))
    requires forall x :: x in Load(device, readFault) ==> x.id != r.id
    ensures DistinctIds(Load(AfterSave(device, r, readFault), false))
  {
  }

  // ---------------------------------------------------------------------------
  // Updating a record

  /** Array.prototype.findIndex on `id` equality: the first index whose record has
      that `id`, or -1 when none has. */
  function FindIndex(logs: seq<CallLog>, id: string): (r: int)
    ensures -1 <= r < |logs|
    ensures r == -1 <==> forall i :: 0 <= i < |logs| ==> logs[i].id != id
    ensures r != -1 ==> logs[r].id == id
    ensures forall i :: 0 <= i < r ==> logs[i].id != id
    decreases |logs|
  {
    if logs == [] then -1
    else if logs[0].id == id then 0
    else
      var k := FindIndex(logs[1..], id);
      if k == -1 then -1 else k + 1
  }

  /** Whether updateCallLog(u) writes at all: only when some record has `u.id`. */
  predicate UpdateWrites(device: map<string, Text>, u: CallLog, readFault: bool)
  {
    FindIndex(Load(device, readFault), u.id) != -1
  }

  /** The device storage after updateCallLog(u) when its write, if any, succeeds. */
  function AfterUpdate(device: map<string, Text>, u: CallLog, readFault: bool): (d: map<string, Text>)
    ensures !UpdateWrites(device, u, readFault) ==> d == device
    ensures UpdateWrites(device, u, readFault) ==> d.Keys == device.Keys + {StorageKey}
    ensures forall k :: k in device && k != StorageKey ==> d[k] == device[k]
  {
    var logs := Load(device, readFault);
    var i := FindIndex(logs, u.id);
    if i == -1 then device
    else device[StorageKey := Stringify(logs[i := u])]
  }

  /** An update with a matching `id` replaces exactly the first record with that `id`
      by `u`, whole: the length stays, every other index keeps its record. */
  lemma UpdateReplacesFirstMatch(device: map<string, Text>, u: CallLog, readFault: bool)
    requires UpdateWrites(device, u, readFault)
    ensures var logs, i := Load(device, readFault), FindIndex(Load(device, readFault), u.id);
      var after := Load(AfterUpdate(device, u, readFault), false);
      && 0 <= i < |logs|
      && (forall j :: 0 <= j < i ==> logs[j].id != u.id)
      && logs[i].id == u.id
      && |after| == |logs|
      && after[i] == u
      && (forall j :: 0 <= j < |logs| && j != i ==> after[j] == logs[j])
  {
  }

  /** An update with no matching `id` writes nothing: the storage stays as it was,
      even when its text does not parse. */
  lemma UpdateMissIsNoOp(device: map<string, Text>, u: CallLog, readFault: bool)
    requires forall x :: x in Load(device, readFault) ==> x.id != u.id
    ensures !UpdateWrites(device, u, readFault)
    ensures AfterUpdate(device, u, readFault) == device
  {
  }

  /** Matching is on `id` alone: a second update with the same `id` finds the record
      the first one wrote, whatever its other fields, and overwrites it. */
  lemma UpdateSameIdOverwrites(device: map<string, Text>, u: CallLog, v: CallLog)
    requires u.id == v.id
    ensures AfterUpdate(AfterUpdate(device, u, false), v, false) == AfterUpdate(device, v, false)
  {
    var logs := Load(device, false);
    var i := FindIndex(logs, u.id);
    if i != -1 {
      var mid := AfterUpdate(device, u, false);
      LoadAfterWrite(device, logs[i := u]);
      assert Load(mid, false) == logs[i := u];
      var m := logs[i := u];
      assert m[i].id == v.id;
      assert forall j :: 0 <= j < i ==> m[j].id != v.id;
      assert FindIndex(m, v.id) == i;
      assert logs[i := u][i := v] == logs[i := v];
    }
  }

  /** Applying the same update twice gives the same storage as applying it once. */
  lemma UpdateIdempotent(device: map<string, Text>, u: CallLog)
    ensures AfterUpdate(AfterUpdate(device, u, false), u, false) == AfterUpdate(device, u, false)
  {
    UpdateSameIdOverwrites(device, u, u);
  }

  /** An update keeps the ids distinct, since it replaces a record by one with the same `id`. */
  lemma UpdateKeepsDistinctIds(device: map<string, Text>, u: CallLog)
    requires DistinctIds(Load(device, false))
    ensures DistinctIds(Load(AfterUpdate(device, u, false), false))
  {
  }

  // ---------------------------------------------------------------------------
  // Searching by phone number

  /** `q` occurs in `s` starting at index `i`. */
  predicate OccursAt(s: string, q: string, i: int)
  {
    0 <= i && i + |q| <= |s| && s[i..i + |q|] == q
  }

  /** String.prototype.includes: whether `q` occurs in `s` (always, for an empty `q`). */
  function Includes(s: string, q: string): bool
    decreases |s|
  {
    if |q| > |s| then false
    else if s[..|q|] == q then true
    else Includes(s[1..], q)
  }

  /** Includes holds exactly when `q` occurs somewhere in `s`. */
  lemma {:induction false} IncludesIffOccurs(s: string, q: string)
    ensures Includes(s, q) <==> exists i :: OccursAt(s, q, i)
    decreases |s|
  {
    if |q| > |s| {
      assert forall i :: !OccursAt(s, q, i);
    } else if s[..|q|] == q {
      assert OccursAt(s, q, 0);
    } else {
      IncludesIffOccurs(s[1..], q);
      if Includes(s[1..], q) {
        var i :| OccursAt(s[1..], q, i);
        assert s[1..][i..i + |q|] == s[i + 1..i + 1 + |q|];
        assert OccursAt(s, q, i + 1);
      } else {
        forall i | OccursAt(s, q, i)
          ensures false
        {
          assert i != 0;
          assert s[1..][i - 1..i - 1 + |q|] == s[i..i + |q|];
          assert OccursAt(s[1..], q, i - 1);
        }
      }
    }
  }

  /** The phone numbers of a list of records. */
  function Numbers(logs: seq<CallLog>): set<string>
  {
    set x | x in logs :: x.phoneNumber
  }

  /** The phone numbers of `logs` that contain `q`. */
  function MatchingNumbers(logs: seq<CallLog>, q: string): set<string>
  {
    set x | x in logs && Includes(x.phoneNumber, q) :: x.phoneNumber
  }

  /** Index `j` holds the first record of the list with its phone number. */
  predicate IsFirstOccurrence(logs: seq<CallLog>, j: int)
    requires 0 <= j < |logs|
  {
    forall i :: 0 <= i < j ==> logs[i].phoneNumber != logs[j].phoneNumber
  }

  /** The records that are the first with their phone number and contain `q`, in list order. */
  function FirstMatches(logs: seq<CallLog>, q: string): seq<CallLog>
    decreases |logs|
  {
    if logs == [] then []
    else
      var init, last := logs[..|logs| - 1], logs[|logs| - 1];
      FirstMatches(init, q)
        + (if Includes(last.phoneNumber, q) && last.phoneNumber !in Numbers(init) then [last] else [])
  }

  /** What searchByPhoneNumber returns for the list `logs`: nothing for an empty query. */
  function Search(logs: seq<CallLog>, q: string): seq<CallLog>
  {
    if q == "" then [] else FirstMatches(logs, q)
  }

  /** `a` is `b` with some elements left out, the rest in their order. */
  predicate IsSubsequence(a: seq<CallLog>, b: seq<CallLog>)
    decreases |b|
  {
    a == []
    || (b != []
        && (IsSubsequence(a, b[..|b| - 1])
            || (a[|a| - 1] == b[|b| - 1] && IsSubsequence(a[..|a| - 1], b[..|b| - 1]))))
  }

  /** Splitting off the last record of a list. */
  lemma SplitLast(logs: seq<CallLog>)
    requires logs != []
    ensures logs == logs[..|logs| - 1] + [logs[|logs| - 1]]
    ensures forall x :: x in logs <==> x in logs[..|logs| - 1] || x == logs[|logs| - 1]
  {
  }

  /** The numbers kept so far are exactly the matching numbers seen so far; this is
      what lets the loop's Map lookup stand for "seen earlier in the list". */
  lemma {:induction false} FirstMatchesNumbers(logs: seq<CallLog>, q: string)
    ensures Numbers(FirstMatches(logs, q)) == MatchingNumbers(logs, q)
    decreases |logs|
  {
    if logs != [] {
      var init, last := logs[..|logs| - 1], logs[|logs| - 1];
      FirstMatchesNumbers(init, q);
      SplitLast(logs);
      var tail := if Includes(last.phoneNumber, q) && last.phoneNumber !in Numbers(init) then [last] else [];
      assert FirstMatches(logs, q) == FirstMatches(init, q) + tail;
      assert forall x :: x in FirstMatches(logs, q) <==> x in FirstMatches(init, q) || x in tail;
      assert Numbers(FirstMatches(logs, q)) == Numbers(FirstMatches(init, q)) + Numbers(tail);
      if Includes(last.phoneNumber, q) && last.phoneNumber in Numbers(init) {
        var w :| w in init && w.phoneNumber == last.phoneNumber;
        assert last.phoneNumber in MatchingNumbers(init, q);
      }
    }
  }

  /** Every record found contains the query in its phone number. */
  lemma {:induction false} FirstMatchesInclude(logs: seq<CallLog>, q: string)
    ensures forall x :: x in FirstMatches(logs, q) ==> Includes(x.phoneNumber, q)
    decreases |logs|
  {
    if logs != [] {
      FirstMatchesInclude(logs[..|logs| - 1], q);
    }
  }

  /** No two records found share a phone number. */
  lemma {:induction false} FirstMatchesDistinct(logs: seq<CallLog>, q: string)
    ensures var r := FirstMatches(logs, q);
      forall a, b :: 0 <= a < b < |r| ==> r[a].phoneNumber != r[b].phoneNumber
    decreases |logs|
  {
    if logs != [] {
      var init, last := logs[..|logs| - 1], logs[|logs| - 1];
      FirstMatchesDistinct(init, q);
      FirstMatchesNumbers(init, q);
      var prev := FirstMatches(init, q);
      var r := FirstMatches(logs, q);
      if |r| > |prev| {
        assert r == prev + [last];
        forall a | 0 <= a < |prev|
          ensures prev[a].phoneNumber != last.phoneNumber
        {
          assert prev[a] in prev;
          assert prev[a].phoneNumber in MatchingNumbers(init, q);
        }
      }
    }
  }

  /** The records found are a subsequence of the list, compared by value. */
  lemma {:induction false} FirstMatchesSubsequence(logs: seq<CallLog>, q: string)
    ensures IsSubsequence(FirstMatches(logs, q), logs)
    decreases |logs|
  {
    if logs != [] {
      var init := logs[..|logs| - 1];
      FirstMatchesSubsequence(init, q);
      var prev := FirstMatches(init, q);
      if FirstMatches(logs, q) != prev {
        var r := FirstMatches(logs, q);
        assert r[..|r| - 1] == prev;
      }
    }
  }

  /** Every matching number is found through its first record in the list. */
  lemma {:induction false} FirstMatchesComplete(logs: seq<CallLog>, q: string)
    ensures forall j :: 0 <= j < |logs| && Includes(logs[j].phoneNumber, q) && IsFirstOccurrence(logs, j)
                    ==> logs[j] in FirstMatches(logs, q)
    decreases |logs|
  {
    if logs != [] {
      var init, last := logs[..|logs| - 1], logs[|logs| - 1];
      FirstMatchesComplete(init, q);
      forall j | 0 <= j < |logs| && Includes(logs[j].phoneNumber, q) && IsFirstOccurrence(logs, j)
        ensures logs[j] in FirstMatches(logs, q)
      {
        if j < |logs| - 1 {
          assert logs[j] == init[j];
          assert IsFirstOccurrence(init, j);
        }
      }
    }
  }

  /** Every record found is the first record with its phone number. */
  lemma {:induction false} FirstMatchesSound(logs: seq<CallLog>, q: string)
    ensures forall x :: x in FirstMatches(logs, q)
                    ==> exists j :: 0 <= j < |logs| && logs[j] == x && IsFirstOccurrence(logs, j)
    decreases |logs|
  {
    if logs != [] {
      var init, last := logs[..|logs| - 1], logs[|logs| - 1];
      FirstMatchesSound(init, q);
      forall x | x in FirstMatches(logs, q)
        ensures exists j :: 0 <= j < |logs| && logs[j] == x && IsFirstOccurrence(logs, j)
      {
        if x in FirstMatches(init, q) {
          var j :| 0 <= j < |init| && init[j] == x && IsFirstOccurrence(init, j);
          assert logs[j] == x;
          assert IsFirstOccurrence(logs, j);
        } else {
          assert x == last && last.phoneNumber !in Numbers(init);
          var j := |logs| - 1;
          forall i | 0 <= i < j
            ensures logs[i].phoneNumber != logs[j].phoneNumber
          {
            assert logs[i] == init[i];
            assert init[i] in init;
          }
        }
      }
    }
  }

  /** `idx` lists, in increasing order, the positions in `logs` of the records found:
      each is the first record with its phone number and contains `q`, and every such
      position is listed. */
  predicate FoundAt(logs: seq<CallLog>, q: string, idx: seq<int>)
  {
    var r := FirstMatches(logs, q);
    && |idx| == |r|
    && (forall a, b :: 0 <= a < b < |idx| ==> idx[a] < idx[b])
    && (forall k :: 0 <= k < |idx| ==>
          && 0 <= idx[k] < |logs|
          && r[k] == logs[idx[k]]
          && Includes(logs[idx[k]].phoneNumber, q)
          && IsFirstOccurrence(logs, idx[k]))
    && (forall j :: 0 <= j < |logs| && Includes(logs[j].phoneNumber, q) && IsFirstOccurrence(logs, j)
                    ==> j in idx)
  }

  /** The last record of a non-empty list is the first with its phone number exactly
      when no earlier record has that number. */
  lemma LastIsFirstOccurrence(logs: seq<CallLog>)
    requires logs != []
    ensures IsFirstOccurrence(logs, |logs| - 1) <==> logs[|logs| - 1].phoneNumber !in Numbers(logs[..|logs| - 1])
  {
  }

  /** One step of the induction below: the positions found in all but the last record,
      extended by the last position when the last record is found. */
  lemma FoundAtStep(logs: seq<CallLog>, q: string, idx0: seq<int>)
    requires logs != [] && FoundAt(logs[..|logs| - 1], q, idx0)
    ensures var n := |logs|;
      var keep := Includes(logs[n - 1].phoneNumber, q) && logs[n - 1].phoneNumber !in Numbers(logs[..n - 1]);
      FoundAt(logs, q, if keep then idx0 + [n - 1] else idx0)
  {
    var n := |logs|;
    var init, last := logs[..n - 1], logs[n - 1];
    var keep := Includes(last.phoneNumber, q) && last.phoneNumber !in Numbers(init);
    var idx := if keep then idx0 + [n - 1] else idx0;
    var prev := FirstMatches(init, q);
    var r := FirstMatches(logs, q);
    assert r == prev + (if keep then [last] else []);
    LastIsFirstOccurrence(logs);
    assert forall i :: 0 <= i < n - 1 ==> logs[i] == init[i];
    forall k | 0 <= k < |idx|
      ensures && 0 <= idx[k] < |logs|
              && r[k] == logs[idx[k]]
              && Includes(logs[idx[k]].phoneNumber, q)
              && IsFirstOccurrence(logs, idx[k])
    {
      if k < |idx0| {
        assert idx[k] == idx0[k] && r[k] == prev[k];
        assert IsFirstOccurrence(init, idx0[k]);
      }
    }
    forall j | 0 <= j < |logs| && Includes(logs[j].phoneNumber, q) && IsFirstOccurrence(logs, j)
      ensures j in idx
    {
      if j < n - 1 {
        assert IsFirstOccurrence(init, j);
        assert j in idx0;
      }
    }
  }

  /** The records found are exactly the first occurrences of the matching numbers, taken
      by position and in first-seen order, even when a record value repeats in the list. */
  lemma {:induction false} FirstMatchesInFirstSeenOrder(logs: seq<CallLog>, q: string)
    ensures exists idx :: FoundAt(logs, q, idx)
    decreases |logs|
  {
    if logs == [] {
      assert FoundAt(logs, q, []);
    } else {
      FirstMatchesInFirstSeenOrder(logs[..|logs| - 1], q);
      var idx0 :| FoundAt(logs[..|logs| - 1], q, idx0);
      FoundAtStep(logs, q, idx0);
    }
  }

  /** An empty query finds nothing, whatever the store holds. */
  lemma SearchEmptyQuery(logs: seq<CallLog>)
    ensures Search(logs, "") == []
  {
  }

  /** Two calls logged in turn, then a search and a status edit: the list is newest
      first, the search finds both numbers in list order, and the edit changes only
      the status of the older record. */
  lemma TwoCallsScenario(t1: int, t2: int)
    ensures var a := CallLog("1", "555-0001", "", NotAnswered, t1);
      var b := CallLog("2", "555-0002", "Acme", Interested, t2);
      var d := SaveAll(map[], [a, b]);
      && Load(d, false) == [b, a]
      && Search(Load(d, false), "555") == [b, a]
      && Load(AfterUpdate(d, a.(status := FollowUp), false), false) == [b, a.(status := FollowUp)]
  {
    var a := CallLog("1", "555-0001", "", NotAnswered, t1);
    var b := CallLog("2", "555-0002", "Acme", Interested, t2);
    var d := SaveAll(map[], [a, b]);
    SaveAllNewestFirst(map[], [a, b]);
    assert Reversed([a, b]) == [b, a] by {
      assert [a, b][1..] == [b];
      assert Reversed([b]) == [b] by { assert [b][1..] == []; }
    }
    var logs := [b, a];
    assert Includes(b.phoneNumber, "555") && Includes(a.phoneNumber, "555");
    assert logs[..1] == [b] && [b][..0] == [];
    assert Numbers([b]) == {"555-0002"};
    assert FirstMatches([b], "555") == [b];
    assert FirstMatches(logs, "555") == [b, a];
    var a' := a.(status := FollowUp);
    assert FindIndex(logs, a'.id) == 1;
    LoadAfterWrite(d, logs[1 := a']);
  }

  // ---------------------------------------------------------------------------
  // The store

  /** The store over the device's key-value storage. */
  class CallLogStore {
    /** The device storage: storage keys to the text stored under them. */
    var device: map<string, Text>

    constructor (initial: map<string, Text>)
      ensures device == initial
    {
      device := initial;
    }

    /** AsyncStorage.setItem: stores `value` under `key`, or throws and stores nothing. */
    method SetItem(key: string, value: Text, writeFault: bool) returns (outcome: Outcome<StorageError>)
      modifies this
      ensures outcome == if writeFault then Fail(WriteFailed) else Pass
      ensures device == if writeFault then old(device) else old(device)[key := value]
    {
      if writeFault {
        outcome := Fail(WriteFailed);
      } else {
        device := device[key := value];
        outcome := Pass;
      }
    }

    /** getCallLogs: reads the list; a read that throws, a missing key or unparsable
        text all give the empty list rather than an error. */
    method GetCallLogs(readFault: bool) returns (logs: seq<CallLog>)
      ensures logs == Load(device, readFault)
    {
      if readFault {
        return [];
      }
      if StorageKey !in device {
        return [];
      }
      var parsed := Parse(device[StorageKey]);
      match parsed
      case None => logs := [];
      case Some(l) => logs := l;
    }

    /** saveCallLog: prepends `callLog` and writes the whole list back; a failed
        write is passed on to the caller. */
    method SaveCallLog(callLog: CallLog, readFault: bool, writeFault: bool) returns (outcome: Outcome<StorageError>)
      modifies this
      ensures outcome == if writeFault then Fail(WriteFailed) else Pass
      ensures device == if writeFault then old(device) else AfterSave(old(device), callLog, readFault)
    {
      var existingLogs := GetCallLogs(readFault);
      var updatedLogs := [callLog] + existingLogs;
      outcome := SetItem(StorageKey, Stringify(updatedLogs), writeFault);
    }

    /** searchByPhoneNumber: the first record of each distinct phone number containing
        `query`, in list order; nothing for an empty query. */
    method SearchByPhoneNumber(query: string, readFault: bool) returns (results: seq<CallLog>)
      ensures results == Search(Load(device, readFault), query)
    {
      var logs := GetCallLogs(readFault);
      if query == "" {
        return [];
      }
      // The JS Map: its keys, and its values in insertion order.
      var uniqueNumbers: map<string, CallLog> := map[];
      var values: seq<CallLog> := [];
      var i := 0;
      while i < |logs|
        invariant 0 <= i <= |logs|
        invariant values == FirstMatches(logs[..i], query)
        invariant uniqueNumbers.Keys == Numbers(values)
        invariant forall x :: x in values ==> uniqueNumbers[x.phoneNumber] == x
      {
        var log := logs[i];
        assert logs[..i + 1][..i] == logs[..i];
        FirstMatchesNumbers(logs[..i], query);
        FirstMatchesDistinct(logs[..i], query);
        if Includes(log.phoneNumber, query) && log.phoneNumber !in uniqueNumbers {
          uniqueNumbers := uniqueNumbers[log.phoneNumber := log];
          values := values + [log];
        }
        i := i + 1;
      }
      assert logs[..i] == logs;
      results := values;
    }

    /** updateCallLog: replaces the first record with `updatedLog.id` and writes the
        list back; with no such record it writes nothing. A failed write is passed on. */
    method UpdateCallLog(updatedLog: CallLog, readFault: bool, writeFault: bool) returns (outcome: Outcome<StorageError>)
      modifies this
      ensures outcome == if UpdateWrites(old(device), updatedLog, readFault) && writeFault then Fail(WriteFailed) else Pass
      ensures device == if writeFault then old(device) else AfterUpdate(old(device), updatedLog, readFault)
    {
      var logs := GetCallLogs(readFault);
      var logIndex := FindIndex(logs, updatedLog.id);
      if logIndex != -1 {
        logs := logs[logIndex := updatedLog];
        outcome := SetItem(StorageKey, Stringify(logs), writeFault);
      } else {
        outcome := Pass;
      }
    }
  }
}
