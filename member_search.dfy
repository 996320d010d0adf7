/** The pure rules of the member list: the search filter, search highlighting,
    the membership status badge and the results line above the table. */
module MemberSearch {
  import opened Text
  import opened Js

  // ---------------------------------------------------------------- search

  /** The text `handleSearch` stores: the input lower-cased, then trimmed. */
  function NormalizeSearch(input: string): string {
    Trim(Lower(input))
  }

  /** What every stored search text looks like. */
  predicate IsSearchText(s: string) {
    NoUpper(s) && Trimmed(s)
  }

  lemma LowerHasNoUpper(s: string)
    ensures NoUpper(Lower(s))
  {
  }

  lemma {:induction false} TrimKeepsNoUpper(s: string)
    requires NoUpper(s)
    ensures NoUpper(Trim(s))
  {
    var t := TrimStart(s);
    assert NoUpper(t) by {
      forall i | 0 <= i < |t|
        ensures !IsUpper(t[i])
      {
        assert t[i] == s[|s| - |t| + i];
      }
    }
    var r := TrimEnd(t);
    forall i | 0 <= i < |r|
      ensures !IsUpper(r[i])
    {
      assert r[i] == t[i];
    }
  }

  lemma TrimIsTrimmed(s: string)
    ensures Trimmed(Trim(s))
  {
    var t := TrimStart(s);
    var r := TrimEnd(t);
    if r != [] {
      assert r[0] == t[0];
    }
  }

  lemma TrimOfTrimmed(s: string)
    requires Trimmed(s)
    ensures Trim(s) == s
  {
    if s != [] {
      assert !IsSpace(s[0]);
      assert TrimStart(s) == s;
      assert !IsSpace(s[|s| - 1]);
    }
  }

  lemma {:induction false} LowerOfNoUpper(s: string)
    requires NoUpper(s)
    ensures Lower(s) == s
  {
    assert forall i :: 0 <= i < |s| ==> Lower(s)[i] == s[i];
  }

  /** The stored search text has no upper-case letter and no white space at either end. */
  lemma NormalizeSearchShape(input: string)
    ensures IsSearchText(NormalizeSearch(input))
  {
    LowerHasNoUpper(input);
    TrimKeepsNoUpper(Lower(input));
    TrimIsTrimmed(Lower(input));
  }

  /** Storing an already stored text again changes nothing. */
  lemma NormalizeSearchIdempotent(input: string)
    requires IsSearchText(input)
    ensures NormalizeSearch(input) == input
  {
    LowerOfNoUpper(input);
    TrimOfTrimmed(input);
  }

  /** Because the box shows the stored text, a space typed at the end of a stored text is
      trimmed away at once: a search can gain a space only inside it, never by typing one
      at the end. */
  lemma TypedSpaceIsDropped(s: string, c: char)
    requires IsSearchText(s) && IsSpace(c)
    ensures NormalizeSearch(s + [c]) == s
  {
    SpaceKeepsNoUpper(s, c);
    LowerOfNoUpper(s + [c]);
    if s == [] {
      SpaceAloneTrimsAway(c);
    } else {
      TrimStartKeepsTyped(s, c);
      TrimEndDropsSpace(s, c);
      TrimOfTrimmed(s);
      TrimStartOfTrimmed(s);
    }
  }

  lemma SpaceAloneTrimsAway(c: char)
    requires IsSpace(c)
    ensures TrimStart([c]) == []
  {
    assert [c][1..] == [];
  }

  /** A text that starts with no white space is its own `trimStart`. */
  lemma TrimStartOfTrimmed(s: string)
    requires s != [] && !IsSpace(s[0])
    ensures TrimStart(s) == s
  {
  }

  lemma TrimStartKeepsTyped(s: string, c: char)
    requires s != [] && !IsSpace(s[0])
    ensures TrimStart(s + [c]) == s + [c]
  {
    assert (s + [c])[0] == s[0];
  }

  lemma SpaceKeepsNoUpper(s: string, c: char)
    requires NoUpper(s) && IsSpace(c)
    ensures NoUpper(s + [c])
  {
    forall i | 0 <= i < |s| + 1
      ensures !IsUpper((s + [c])[i])
    {
      if i < |s| {
        assert (s + [c])[i] == s[i];
      }
    }
  }

  lemma TrimEndDropsSpace(s: string, c: char)
    requires IsSpace(c)
    ensures TrimEnd(s + [c]) == TrimEnd(s)
  {
    assert (s + [c])[..|s|] == s;
  }

  /** `value && value.toString().toLowerCase().includes(searchText)`. */
  predicate ValueMatches(v: Value, search: string) {
    Truthy(v) && Includes(Lower(ToString(v)), search)
  }

  /** `Object.values(member).some(...)`. */
  predicate MemberMatches(m: Record, search: string) {
    exists i :: 0 <= i < |m| && ValueMatches(m[i].value, search)
  }

  /** `members.filter(...)`. */
  function FilterMembers(members: seq<Record>, search: string): seq<Record>
    decreases |members|
  {
    if members == [] then []
    else (if MemberMatches(members[0], search) then [members[0]] else [])
         + FilterMembers(members[1..], search)
  }

  /** `a` can be obtained from `b` by deleting elements, without reordering. */
  predicate IsSubsequence<T(==)>(a: seq<T>, b: seq<T>)
    decreases |b|
  {
    if a == [] then true
    else if b == [] then false
    else if a[0] == b[0] then IsSubsequence(a[1..], b[1..])
    else IsSubsequence(a, b[1..])
  }

  lemma {:induction false} SubsequenceDrop<T>(a: seq<T>, b: seq<T>)
    requires b != [] && IsSubsequence(a, b[1..])
    ensures IsSubsequence(a, b)
    decreases |b|, |a|
  {
    if a != [] && a[0] == b[0] {
      SubsequenceTail(a, b[1..]);
    }
  }

  lemma {:induction false} SubsequenceTail<T>(a: seq<T>, b: seq<T>)
    requires a != [] && IsSubsequence(a, b)
    ensures IsSubsequence(a[1..], b)
    decreases |b|, |a|
  {
    if a[1..] != [] {
      if a[0] == b[0] {
        SubsequenceDrop(a[1..], b);
      } else {
        SubsequenceTail(a, b[1..]);
        SubsequenceDrop(a[1..], b);
      }
    }
  }

  /** The filtered list keeps the members' order and so is no longer than the full list. */
  lemma {:induction false} FilterIsSubsequence(members: seq<Record>, search: string)
    ensures IsSubsequence(FilterMembers(members, search), members)
    ensures |FilterMembers(members, search)| <= |members|
    decreases |members|
  {
    if members != [] {
      var rest := FilterMembers(members[1..], search);
      FilterIsSubsequence(members[1..], search);
      if MemberMatches(members[0], search) {
        assert FilterMembers(members, search) == [members[0]] + rest;
        assert ([members[0]] + rest)[1..] == rest;
      } else {
        assert FilterMembers(members, search) == rest;
        SubsequenceDrop(rest, members);
      }
    }
  }

  /** A member is shown exactly when it matches, and as often as it occurs in the list. */
  lemma {:induction false} FilterCounts(members: seq<Record>, search: string, m: Record)
    ensures multiset(FilterMembers(members, search))[m]
            == if MemberMatches(m, search) then multiset(members)[m] else 0
    decreases |members|
  {
    if members != [] {
      FilterCounts(members[1..], search, m);
      assert members == [members[0]] + members[1..];
      assert multiset(members) == multiset([members[0]]) + multiset(members[1..]);
    }
  }

  /** Kept iff some field value is truthy and its lower-cased text contains the search. */
  lemma FilterMembership(members: seq<Record>, search: string, m: Record)
    ensures m in FilterMembers(members, search)
            <==> m in members && exists i :: 0 <= i < |m| && Truthy(m[i].value)
                                  && Includes(Lower(ToString(m[i].value)), search)
  {
    FilterCounts(members, search, m);
  }

  /** With an empty search a member is kept iff one of its values is truthy: a record whose
      values are all falsy (`0`, `false`, `''`, `null`) is hidden even then. */
  lemma EmptySearchKeepsTruthy(m: Record)
    ensures MemberMatches(m, "") <==> exists i :: 0 <= i < |m| && Truthy(m[i].value)
  {
    if exists i :: 0 <= i < |m| && Truthy(m[i].value) {
      var i :| 0 <= i < |m| && Truthy(m[i].value);
      assert ValueMatches(m[i].value, "");
    }
  }

  // ------------------------------------------------------------- highlight

  /** Characters that would make the search text something other than a literal pattern. */
  predicate IsRegexMeta(c: char) {
    c in "\\^$.|?*+()[]{}"
  }

  predicate IsLiteral(s: string) {
    forall i :: 0 <= i < |s| ==> !IsRegexMeta(s[i])
  }

  /** One step of `replace(/(search)/gi, ...)`: a character left alone or a match wrapped. */
  datatype Piece = Plain(c: char) | Hit(text: string)

  const Open: string := "<span class=\"highlight\">"
  const Close: string := "</span>"

  /** The text matches the search ignoring ASCII case. */
  predicate SameIgnoringCase(a: string, b: string) {
    Lower(a) == Lower(b)
  }

  /** A case-insensitive occurrence of `s` in `t` starts at index `i`. */
  predicate MatchAt(t: string, s: string, i: int) {
    0 <= i && i + |s| <= |t| && SameIgnoringCase(t[i..i + |s|], s)
  }

  /** The global scan: at each position either a match starts (and is consumed whole)
      or one character is passed over. */
  function Scan(t: string, s: string): seq<Piece>
    requires s != []
    decreases |t|
  {
    if t == [] then []
    else if MatchAt(t, s, 0) then [Hit(t[..|s|])] + Scan(t[|s|..], s)
    else [Plain(t[0])] + Scan(t[1..], s)
  }

  /** The text with the highlight markers taken out. */
  function Unmark(ps: seq<Piece>): string {
    if ps == [] then []
    else (match ps[0] case Plain(c) => [c] case Hit(x) => x) + Unmark(ps[1..])
  }

  /** The text with every match wrapped in the highlight span. */
  function Render(ps: seq<Piece>): string {
    if ps == [] then []
    else (match ps[0] case Plain(c) => [c] case Hit(x) => Open + x + Close) + Render(ps[1..])
  }

  /** `highlightText(text, search)`: the value itself for an empty search; otherwise
      `text.toString()` (a TypeError on `null`/`undefined`) with the matches wrapped. */
  function HighlightText(text: Value, search: string): (r: Option<Value>)
    requires IsLiteral(search)
    ensures search == "" ==> r == Some(text)
    ensures search != "" ==> (r.None? <==> text.Null? || text.Undefined?)
    ensures search != "" && r.Some? ==> r == Some(Str(Render(Scan(ToString(text), search))))
  {
    if search == "" then Some(text)
    else match MethodToString(text)
      case None => None
      case Some(t) => Some(Str(Render(Scan(t, search))))
  }

  lemma UnmarkAppend(p: Piece, ps: seq<Piece>)
    ensures Unmark([p] + ps) == (match p case Plain(c) => [c] case Hit(x) => x) + Unmark(ps)
  {
    assert ([p] + ps)[1..] == ps;
  }

  /** Taking the highlight markers out gives back the text. */
  lemma {:induction false} ScanUnmark(t: string, s: string)
    requires s != []
    ensures Unmark(Scan(t, s)) == t
    decreases |t|
  {
    if t == [] {
    } else if MatchAt(t, s, 0) {
      ScanUnmark(t[|s|..], s);
      UnmarkAppend(Hit(t[..|s|]), Scan(t[|s|..], s));
      assert t == t[..|s|] + t[|s|..];
    } else {
      ScanUnmark(t[1..], s);
      UnmarkAppend(Plain(t[0]), Scan(t[1..], s));
      assert t == [t[0]] + t[1..];
    }
  }

  /** Every wrapped piece is a case-insensitive match, kept in its original casing. */
  lemma {:induction false} ScanHitsMatch(t: string, s: string)
    requires s != []
    ensures forall k :: 0 <= k < |Scan(t, s)| && Scan(t, s)[k].Hit? ==>
              |Scan(t, s)[k].text| == |s| && SameIgnoringCase(Scan(t, s)[k].text, s)
    decreases |t|
  {
    if t == [] {
    } else if MatchAt(t, s, 0) {
      ScanHitsMatch(t[|s|..], s);
      assert t[..|s|] == t[0..0 + |s|];
    } else {
      ScanHitsMatch(t[1..], s);
    }
  }

  /** No match starts at a character left plain: every occurrence that the left-to-right
      scan reaches is wrapped (an occurrence overlapping a wrapped one is not reached). */
  lemma {:induction false} ScanPlainsDoNotMatch(t: string, s: string)
    requires s != []
    ensures forall k :: 0 <= k < |Scan(t, s)| && Scan(t, s)[k].Plain? ==>
              !MatchAt(Unmark(Scan(t, s)[k..]), s, 0)
    decreases |t|
  {
    if t != [] {
      var ps := Scan(t, s);
      var rest := if MatchAt(t, s, 0) then t[|s|..] else t[1..];
      var tail := Scan(rest, s);
      assert ps[1..] == tail;
      ScanPlainsDoNotMatch(rest, s);
      forall k | 0 <= k < |ps| && ps[k].Plain?
        ensures !MatchAt(Unmark(ps[k..]), s, 0)
      {
        if k == 0 {
          ScanUnmark(t, s);
          assert ps[0..] == ps;
        } else {
          assert ps[k..] == tail[k - 1..];
        }
      }
    }
  }

  /** A text with no case-insensitive occurrence of the search comes back unchanged. */
  lemma {:induction false} NoMatchRendersUnchanged(t: string, s: string)
    requires s != []
    requires forall i :: !MatchAt(t, s, i)
    ensures Render(Scan(t, s)) == t
    decreases |t|
  {
    if t != [] {
      assert !MatchAt(t, s, 0);
      forall i
        ensures !MatchAt(t[1..], s, i)
      {
        if 0 <= i && i + |s| <= |t[1..]| {
          assert t[1..][i..i + |s|] == t[i + 1..i + 1 + |s|];
          assert !MatchAt(t, s, i + 1);
        }
      }
      NoMatchRendersUnchanged(t[1..], s);
      assert Render(Scan(t, s)) == [t[0]] + Render(Scan(t[1..], s));
    }
  }

  // ---------------------------------------------------------------- status

  datatype Badge = Badge(text: string, cls: string)

  /** `getStatus(member)`: `freeze` first, then the expiry date against now. Parsing
      `new Date(member.expiryDate)` is the `parseDate` argument (None is an Invalid Date,
      which compares false); `now` is the instant `new Date()` reads. */
  function GetStatus(m: Record, parseDate: Value -> Option<int>, now: int): (b: Badge)
    ensures b.text == "Frozen" <==> Truthy(Get(m, "freeze"))
    ensures b.text == "Expired" <==> !Truthy(Get(m, "freeze"))
                                      && parseDate(Get(m, "expiryDate")).Some?
                                      && parseDate(Get(m, "expiryDate")).value < now
    ensures b.text == "Active" <==> !Truthy(Get(m, "freeze"))
                                     && (parseDate(Get(m, "expiryDate")).None?
                                         || parseDate(Get(m, "expiryDate")).value >= now)
    ensures b.cls == "status-" + Lower(b.text)
  {
    var expiry := parseDate(Get(m, "expiryDate"));
    if Truthy(Get(m, "freeze")) then Badge("Frozen", "status-frozen")
    else if expiry.Some? && expiry.value < now then Badge("Expired", "status-expired")
    else Badge("Active", "status-active")
  }

  // ----------------------------------------------------------- results line

  /** The line above the table: loading first, then the empty case, then the counts. */
  function ResultsInfo(isLoading: bool, members: seq<Record>, search: string): (r: string)
    ensures isLoading ==> r == "Loading..."
    ensures !isLoading && FilterMembers(members, search) == [] ==> r == "No members found"
    ensures !isLoading && FilterMembers(members, search) != [] ==>
              && 0 < |FilterMembers(members, search)| <= |members|
              && r == "Showing " + NatToString(|FilterMembers(members, search)|)
                      + " of " + NatToString(|members|) + " members"
  {
    var shown := FilterMembers(members, search);
    FilterIsSubsequence(members, search);
    if isLoading then "Loading..."
    else if |shown| == 0 then "No members found"
    else "Showing " + NatToString(|shown|) + " of " + NatToString(|members|) + " members"
  }
}
