/** The recently-deleted panel: which history entries it lists, when it is visible, which
    message it shows, and what its Restore button sends. */
module DeleteHistoryPanel {
  import opened Text
  import opened Js
  import opened MembersApi

  /** `const { data: deleteHistory = [] }`: no data yet reads as an empty history. */
  function History(data: Option<seq<Record>>): (h: seq<Record>)
    ensures data.None? ==> h == []
    ensures data.Some? ==> h == data.value
  {
    if data.Some? then data.value else []
  }

  /** `Array.prototype.slice(start)`: a negative start counts back from the end and is
      clamped at 0, a start past the end gives nothing. */
  function Slice<T>(xs: seq<T>, start: int): seq<T> {
    var from := if start < 0 then (if |xs| + start < 0 then 0 else |xs| + start)
                else (if start > |xs| then |xs| else start);
    xs[from..]
  }

  function Min(a: int, b: int): int {
    if a < b then a else b
  }

  /** Whatever the start, the slice is a suffix: the last `-start` elements (all of them when
      there are fewer) for a negative start, everything from position `start` on otherwise. */
  lemma SliceLaws<T>(xs: seq<T>, start: int)
    ensures |Slice(xs, start)| == if start < 0 then Min(-start, |xs|) else |xs| - Min(start, |xs|)
    ensures Slice(xs, start) == xs[|xs| - |Slice(xs, start)|..]
  {
  }

  /** `deleteHistory.slice(-5)`. */
  function Displayed(h: seq<Record>): seq<Record> {
    Slice(h, -5)
  }

  /** The rows are the last five entries, or all of them when there are fewer, oldest first. */
  lemma DisplayedIsLastFive(h: seq<Record>)
    ensures |Displayed(h)| == if |h| < 5 then |h| else 5
    ensures Displayed(h) == h[|h| - |Displayed(h)|..]
    ensures forall i :: 0 <= i < |Displayed(h)| ==> Displayed(h)[i] == h[|h| - |Displayed(h)| + i]
  {
  }

  /** `display: deleteHistory.length > 0 ? 'block' : 'none'`. */
  predicate Visible(h: seq<Record>) {
    |h| > 0
  }

  datatype Body = LoadingMsg | EmptyMsg | Entries(rows: seq<Record>)

  /** The list area: the loading message first, then the empty message, then the rows. */
  function ListBody(isLoading: bool, h: seq<Record>): (b: Body)
    ensures b.LoadingMsg? <==> isLoading
    ensures b.EmptyMsg? <==> !isLoading && |h| == 0
    ensures b.Entries? <==> !isLoading && |h| > 0
    ensures b.Entries? ==> b.rows == Displayed(h) && 1 <= |b.rows| <= 5
  {
    DisplayedIsLastFive(h);
    if isLoading then LoadingMsg
    else if |h| == 0 then EmptyMsg
    else Entries(Displayed(h))
  }

  /** The empty message sits inside a hidden panel, so it is never seen; so does the loading
      message on the first load, when there is no data yet. */
  lemma MessagesHidden(isLoading: bool, data: Option<seq<Record>>)
    ensures ListBody(isLoading, History(data)).EmptyMsg? ==> !Visible(History(data))
    ensures data.None? ==> !Visible(History(data))
    ensures Visible(History(data)) ==> !ListBody(isLoading, History(data)).EmptyMsg?
  {
  }

  /** `handleRestore(index, item)`: the restore of that row once the confirmation is accepted. */
  function HandleRestore(index: int, item: Record, confirmed: bool): (call: Option<Mutation>)
    ensures call.None? <==> !confirmed
    ensures call.Some? ==> call.value == RestoreCall(index, item)
  {
    if confirmed then Some(RestoreCall(index, item)) else None
  }

  /** The Restore button of row `i`: its position among the displayed rows and its entry. */
  function ClickRestore(h: seq<Record>, i: nat, confirmed: bool): (call: Option<Mutation>)
    requires i < |Displayed(h)|
    ensures call.None? <==> !confirmed
    ensures call.Some? ==> call.value == RestoreCall(i, Displayed(h)[i])
  {
    HandleRestore(i, Displayed(h)[i], confirmed)
  }

  /** What row `i`'s restore sends: the entry back to the member list, then a DELETE of the
      history id `i + 1`, a number from 1 to 5 that depends on the row and not on the entry.
      It names the entry's own place in the history exactly when at most five are kept. */
  lemma RestoreDeletesByRow(h: seq<Record>, i: nat, date: string)
    requires i < |Displayed(h)|
    ensures var reqs := MutationRequests(ClickRestore(h, i, true).value, date);
      && reqs[0] == Request(POST, CollectionUrl(Members), Some(Displayed(h)[i]))
      && reqs[1] == Request(DELETE, ItemUrl(DeleteHistory, NatToString(i + 1)), None)
      && 1 <= i + 1 <= 5
    ensures Displayed(h)[i] == h[|h| - |Displayed(h)| + i]
    ensures (|h| - |Displayed(h)| + i == i) <==> |h| <= 5
  {
    DisplayedIsLastFive(h);
    RowRequests(h, i, date);
    assert IntToString(i + 1) == NatToString(i + 1);
  }

  /** Different numbers have different decimal texts. */
  lemma IntToStringInjective(a: int, b: int)
    requires IntToString(a) == IntToString(b)
    ensures a == b
  {
    ParseIntOfIntToString(a);
    ParseIntOfIntToString(b);
  }

  /** History entries numbered 1, 2, 3, ... by position. */
  predicate NumberedByPosition(history: seq<Record>) {
    forall p :: 0 <= p < |history| ==> HasId(history[p], IntToString(p + 1))
  }

  lemma FindNumbered(history: seq<Record>, i: nat)
    requires NumberedByPosition(history) && i < |history|
    ensures FindId(history, IntToString(i + 1)) == Some(i)
  {
    FindAtOrBefore(history, IntToString(i + 1), i);
    var q := FindId(history, IntToString(i + 1)).value;
    NumberedAt(history, q);
    SameId(history[q], IntToString(i + 1), IntToString(q + 1));
    IntToStringInjective(q + 1, i + 1);
  }

  lemma NumberedAt(history: seq<Record>, p: nat)
    requires NumberedByPosition(history) && p < |history|
    ensures HasId(history[p], IntToString(p + 1))
  {
  }

  lemma SameId(r: Record, a: string, b: string)
    requires HasId(r, a) && HasId(r, b)
    ensures a == b
  {
  }

  /** An item with the id makes `FindId` succeed at it or before it. */
  lemma FindAtOrBefore(items: seq<Record>, id: string, i: nat)
    requires i < |items| && HasId(items[i], id)
    ensures FindId(items, id).Some? && FindId(items, id).value <= i
    ensures HasId(items[FindId(items, id).value], id)
  {
  }

  /** Against a history numbered by position, restoring row `i` appends its entry to the
      members and removes the `i`-th oldest entry. By `RestoreDeletesByRow` that is the
      restored entry only when the history holds at most five; with six or more an older
      entry goes and the restored one stays listed. */
  lemma RestoreRemovesRowPosition(s: Store, k: nat, lost: set<nat>, i: nat, date: string)
    requires k !in lost && k + 1 !in lost
    requires NumberedByPosition(s.history)
    requires i < |Displayed(s.history)|
    ensures var o := Run(s, k, lost, MutationRequests(ClickRestore(s.history, i, true).value, date));
      && o.last.Ok?
      && o.store.members == s.members + [Displayed(s.history)[i]]
      && o.store.history == s.history[..i] + s.history[i + 1..]
  {
    var item := Displayed(s.history)[i];
    RowRequests(s.history, i, date);
    DisplayedIsLastFive(s.history);
    FindNumbered(s.history, i);
    RestoreEffect(s, k, lost, i, item);
  }

  /** The requests the confirmed Restore button of row `i` issues. */
  lemma RowRequests(h: seq<Record>, i: nat, date: string)
    requires i < |Displayed(h)|
    ensures MutationRequests(ClickRestore(h, i, true).value, date)
            == RestoreMemberRequests(i, Displayed(h)[i])
  {
    assert ClickRestore(h, i, true) == Some(RestoreCall(i, Displayed(h)[i]));
  }

  /** A member deleted into an empty history and then restored from the panel's one row.
      The entry `deleteMember` posted keeps the member's own `id`, so the DELETE of history
      id 1 finds it only when that id reads `1`. Otherwise the restore rejects and the entry
      stays listed, while the member has been added back all the same. */
  lemma DeleteThenRestore(s: Store, k: nat, lost: set<nat>, id: Value, m: Record, date: string)
    requires k !in lost && k + 1 !in lost && k + 2 !in lost && k + 3 !in lost
    requires s.history == [] && FindId(s.members, ToString(id)).Some?
    ensures var j := FindId(s.members, ToString(id)).value;
      var entry := HistoryEntry(m, date);
      var d := Run(s, k, lost, DeleteMemberRequests(id, m, date)).store;
      && Get(entry, "id") == Get(m, "id")
      && Displayed(d.history) == [entry]
      && var o := Run(d, k + 2, lost, MutationRequests(ClickRestore(d.history, 0, true).value, date));
         && o.store.members == s.members[..j] + s.members[j + 1..] + [entry]
         && (HasId(m, "1") ==> o.last.Ok? && o.store.history == [])
         && (!HasId(m, "1") ==> o.last.Failed? && o.store.history == [entry])
  {
    var entry := HistoryEntry(m, date);
    DeleteMovesMember(s, k, lost, id, m, date);
    EntryKeepsId(m, date);
    var d := Run(s, k, lost, DeleteMemberRequests(id, m, date)).store;
    SingleRowRestore(d.history, entry, date);
    RestoreOnlyEntry(d, k + 2, lost, entry);
  }

  /** The entry `deleteMember` posts has the member's `id`. */
  lemma EntryKeepsId(m: Record, date: string)
    ensures Get(HistoryEntry(m, date), "id") == Get(m, "id")
  {
    PutLaws(m, "deletionDate", Str(date));
  }

  /** Restoring index 0 against a one-entry history: the entry comes back to the members,
      and it leaves the history exactly when its id reads `1`. */
  lemma RestoreOnlyEntry(d: Store, k: nat, lost: set<nat>, entry: Record)
    requires k !in lost && k + 1 !in lost
    requires d.history == [entry]
    ensures var o := Run(d, k, lost, RestoreMemberRequests(0, entry));
      && o.store.members == d.members + [entry]
      && (HasId(entry, "1") ==> o.last.Ok? && o.store.history == [])
      && (!HasId(entry, "1") ==> o.last.Failed? && o.store.history == [entry])
  {
    FindSingle(d.history, entry);
    if HasId(entry, "1") {
      RestoreFound(d, k, lost, 0, entry);
    } else {
      RestoreMissing(d, k, lost, 0, entry);
    }
  }

  lemma RestoreFound(d: Store, k: nat, lost: set<nat>, i: nat, entry: Record)
    requires k !in lost && k + 1 !in lost
    requires FindId(d.history, IntToString(i + 1)) == Some(0) && |d.history| == 1
    ensures var o := Run(d, k, lost, RestoreMemberRequests(i, entry));
      o.store.members == d.members + [entry] && o.last.Ok? && o.store.history == []
  {
    RestoreEffect(d, k, lost, i, entry);
  }

  lemma RestoreMissing(d: Store, k: nat, lost: set<nat>, i: nat, entry: Record)
    requires k !in lost && k + 1 !in lost
    requires FindId(d.history, IntToString(i + 1)) == None
    ensures var o := Run(d, k, lost, RestoreMemberRequests(i, entry));
      o.store.members == d.members + [entry] && o.last.Failed? && o.store.history == d.history
  {
    RestoreEffect(d, k, lost, i, entry);
  }

  /** The only row of a one-entry history shows that entry and restores it with index 0. */
  lemma SingleRowRestore(h: seq<Record>, entry: Record, date: string)
    requires h == [entry]
    ensures Displayed(h) == [entry]
    ensures MutationRequests(ClickRestore(h, 0, true).value, date) == RestoreMemberRequests(0, entry)
  {
    assert Slice(h, -5) == h[0..];
    RowRequests(h, 0, date);
  }

  /** History id 1, the id the restore of row 0 deletes, is found in a one-entry history
      exactly when that entry has it. */
  lemma FindSingle(h: seq<Record>, entry: Record)
    requires h == [entry]
    ensures FindId(h, IntToString(0 + 1)) == if HasId(entry, "1") then Some(0) else None
  {
    assert IntToString(0 + 1) == "1" by {
      assert NatToString(1) == "1";
    }
  }


  /** Member `{id: 7}`, alone in the list, deleted and then restored: it is back in the list
      and its history entry is still there, and the restore's promise rejects. */
  lemma DeleteThenRestoreSeven(k: nat, lost: set<nat>, date: string)
    requires k !in lost && k + 1 !in lost && k + 2 !in lost && k + 3 !in lost
    ensures var m: Record := [Field("id", Num(7))];
      var entry := HistoryEntry(m, date);
      var d := Run(Store([m], []), k, lost, DeleteMemberRequests(Num(7), m, date)).store;
      var o := Run(d, k + 2, lost, RestoreMemberRequests(0, entry));
      && d == Store([], [entry])
      && o.last.Failed? && o.store == Store([entry], [entry])
  {
    var m: Record := [Field("id", Num(7))];
    assert HasId(m, ToString(Num(7)));
    assert FindId([m], ToString(Num(7))) == Some(0);
    assert !HasId(m, "1") by {
      if ToString(Num(7)) == "1" {
        assert IntToString(7) == IntToString(1);
        IntToStringInjective(7, 1);
      }
    }
    DeleteThenRestore(Store([m], []), k, lost, Num(7), m, date);
    DeleteMovesMember(Store([m], []), k, lost, Num(7), m, date);
    var d := Run(Store([m], []), k, lost, DeleteMemberRequests(Num(7), m, date)).store;
    assert MutationRequests(ClickRestore(d.history, 0, true).value, date)
        == RestoreMemberRequests(0, HistoryEntry(m, date));
  }
}
