/** The exact-text editor behind the edit_file tool (cmd/provider.go).

    A file is a sequence of bytes.  An edit list is accepted when every oldText is
    non-empty, occurs exactly once in the original file, and no two of the matched
    spans overlap; the edits are then spliced in back to front.  The specification is
    simultaneous substitution: one left-to-right pass over the original file that
    knows the edits only as a set. */
module Editor {
  import opened ByteStrings
  import opened Sequences

  type Text = Bytes

  datatype Edit = Edit(oldText: Text, newText: Text)

  /** The span [start, end) of the original file matched by edits[edit]. */
  datatype EditMatch = EditMatch(start: nat, end: nat, edit: nat)

  datatype EditResult =
    | Written(content: Text)
    | NoEdits
    | EmptyOldText(edit: nat)
    | NotFound(edit: nat)
    | Ambiguous(edit: nat, count: nat)
    | Overlapping(edit: nat, other: nat)

  // ---------- Occurrences ----------

  predicate MatchesAt(s: Text, sub: Text, p: int) {
    0 <= p && p + |sub| <= |s| && s[p..p + |sub|] == sub
  }

  ghost predicate Unique(s: Text, sub: Text) {
    && (exists p :: MatchesAt(s, sub, p))
    && (forall p, q :: MatchesAt(s, sub, p) && MatchesAt(s, sub, q) ==> p == q)
  }

  /** The only place where `sub` occurs in `s`. */
  ghost function Place(s: Text, sub: Text): (p: nat)
    requires Unique(s, sub)
    ensures MatchesAt(s, sub, p)
  {
    var p :| MatchesAt(s, sub, p);
    p
  }

  /** The library search strings.Index(s[from:], sub), as an offset into s; -1 when absent. */
  method Index(s: Text, from: nat, sub: Text) returns (pos: int)
    requires from <= |s|
    ensures pos == -1 || from <= pos
    ensures pos == -1 ==> forall p :: from <= p ==> !MatchesAt(s, sub, p)
    ensures pos != -1 ==> MatchesAt(s, sub, pos) && forall p :: from <= p < pos ==> !MatchesAt(s, sub, p)
  {
    pos := from;
    while pos + |sub| <= |s|
      invariant from <= pos
      invariant forall p :: from <= p < pos ==> !MatchesAt(s, sub, p)
    {
      if MatchesAt(s, sub, pos) {
        return;
      }
      pos := pos + 1;
    }
    pos := -1;
  }

  ghost predicate Ascending(ps: seq<nat>) {
    forall i, j :: 0 <= i < j < |ps| ==> ps[i] < ps[j]
  }

  /** Every start position of `sub`, overlapping occurrences included, in ascending order. */
  method FindOccurrences(s: Text, sub: Text) returns (occurrences: seq<nat>)
    requires sub != []
    ensures Ascending(occurrences)
    ensures forall p :: p in occurrences <==> MatchesAt(s, sub, p)
  {
    occurrences := [];
    var start := 0;
    while true
      invariant start <= |s|
      invariant Ascending(occurrences)
      invariant forall p :: p in occurrences <==> p < start && MatchesAt(s, sub, p)
      decreases |s| - start
    {
      var pos := Index(s, start, sub);
      if pos == -1 {
        break;
      }
      assert forall i :: 0 <= i < |occurrences| ==> occurrences[i] in occurrences;
      occurrences := occurrences + [pos];
      start := pos + 1;
    }
  }

  /** Counting the occurrences decides uniqueness. */
  lemma OneOccurrenceIsUnique(s: Text, sub: Text, ps: seq<nat>)
    requires Ascending(ps) && forall p :: p in ps <==> MatchesAt(s, sub, p)
    ensures |ps| == 1 <==> Unique(s, sub)
    ensures |ps| == 1 ==> Unique(s, sub) && Place(s, sub) == ps[0]
  {
    if |ps| == 1 {
      assert ps[0] in ps;
    } else if |ps| > 1 {
      assert ps[0] in ps && ps[1] in ps && ps[0] < ps[1];
    } else {
      assert forall p :: MatchesAt(s, sub, p) ==> p in ps;
    }
  }

  predicate Overlaps(aStart: int, aEnd: int, bStart: int, bEnd: int) {
    aStart < bEnd && bStart < aEnd
  }

  // ---------- Which edit lists are accepted ----------

  ghost predicate Placed(s: Text, e: Edit) {
    e.oldText != [] && Unique(s, e.oldText)
  }

  ghost function Start(s: Text, e: Edit): nat
    requires Placed(s, e)
  {
    Place(s, e.oldText)
  }

  ghost function End(s: Text, e: Edit): nat
    requires Placed(s, e)
  {
    Start(s, e) + |e.oldText|
  }

  ghost predicate Apart(s: Text, e: Edit, f: Edit)
    requires Placed(s, e) && Placed(s, f)
  {
    !Overlaps(Start(s, e), End(s, e), Start(s, f), End(s, f))
  }

  predicate Within(p: int, start: int, end: int) {
    start <= p < end
  }

  /** The comparison of the ends finds exactly the spans that share a position; spans that
      only touch do not. */
  lemma OverlapIsACommonPosition(aStart: int, aEnd: int, bStart: int, bEnd: int)
    requires aStart < aEnd && bStart < bEnd
    ensures Overlaps(aStart, aEnd, bStart, bEnd) <==> exists p :: Within(p, aStart, aEnd) && Within(p, bStart, bEnd)
  {
    if Overlaps(aStart, aEnd, bStart, bEnd) {
      var p := if aStart < bStart then bStart else aStart;
      assert Within(p, aStart, aEnd) && Within(p, bStart, bEnd);
    }
  }

  /** Position p of s lies in an occurrence of `sub`. */
  ghost predicate Covered(s: Text, sub: Text, p: int) {
    exists start :: MatchesAt(s, sub, start) && Within(p, start, start + |sub|)
  }

  /** The documented acceptance rule, in terms of the file alone: each oldText is non-empty and
      occurs once, and no position of the file lies in the spans of two edits of the list. */
  ghost predicate UniqueAndDisjoint(s: Text, edits: seq<Edit>) {
    && (forall e :: e in edits ==> e.oldText != [] && Unique(s, e.oldText))
    && (forall i, j, p :: 0 <= i < j < |edits| ==>
          !(Covered(s, edits[i].oldText, p) && Covered(s, edits[j].oldText, p)))
  }

  lemma ApartMeansNothingShared(s: Text, e: Edit, f: Edit)
    requires Placed(s, e) && Placed(s, f)
    ensures Apart(s, e, f) <==> forall p :: !(Covered(s, e.oldText, p) && Covered(s, f.oldText, p))
  {
    OverlapIsACommonPosition(Start(s, e), End(s, e), Start(s, f), End(s, f));
    forall p
      ensures Covered(s, e.oldText, p) <==> Within(p, Start(s, e), End(s, e))
      ensures Covered(s, f.oldText, p) <==> Within(p, Start(s, f), End(s, f))
    {
      CoveredIsWithin(s, e, p);
      CoveredIsWithin(s, f, p);
    }
    hide Within, Covered, Overlaps;
  }

  lemma CoveredIsWithin(s: Text, e: Edit, p: int)
    requires Placed(s, e)
    ensures Covered(s, e.oldText, p) <==> Within(p, Start(s, e), End(s, e))
  {
    assert MatchesAt(s, e.oldText, Start(s, e));
  }

  lemma {:induction false} AcceptableMeansDisjoint(s: Text, edits: seq<Edit>)
    ensures Acceptable(s, edits) <==> UniqueAndDisjoint(s, edits)
  {
    hide Covered, Apart, Unique;
    if forall e :: e in edits ==> Placed(s, e) {
      forall i, j | 0 <= i < j < |edits|
        ensures Apart(s, edits[i], edits[j])
           <==> forall p :: !(Covered(s, edits[i].oldText, p) && Covered(s, edits[j].oldText, p))
      {
        assert edits[i] in edits && edits[j] in edits;
        ApartMeansNothingShared(s, edits[i], edits[j]);
      }
    }
  }

  /** The same rule as the code checks it, by comparing the ends of the matched spans. */
  ghost predicate Acceptable(s: Text, edits: seq<Edit>) {
    && (forall e :: e in edits ==> Placed(s, e))
    && (forall i, j :: 0 <= i < j < |edits| ==> Apart(s, edits[i], edits[j]))
  }

  /** The first reason to reject, scanning the list in order as the tool reports it. */
  ghost predicate RejectedBecause(s: Text, edits: seq<Edit>, r: EditResult) {
    match r
    case Written(_) => false
    case NoEdits => edits == []
    case EmptyOldText(i) => i < |edits| && Acceptable(s, edits[..i]) && edits[i].oldText == []
    case NotFound(i) =>
      && i < |edits| && Acceptable(s, edits[..i])
      && edits[i].oldText != [] && forall p :: !MatchesAt(s, edits[i].oldText, p)
    case Ambiguous(i, n) =>
      && i < |edits| && Acceptable(s, edits[..i]) && edits[i].oldText != [] && n >= 2
      && exists ps: seq<nat> :: |ps| == n && Ascending(ps) && forall p :: p in ps <==> MatchesAt(s, edits[i].oldText, p)
    case Overlapping(i, j) =>
      && j < i < |edits| && Acceptable(s, edits[..i]) && Placed(s, edits[i])
      && !Apart(s, edits[j], edits[i])
      && forall k :: 0 <= k < j ==> Apart(s, edits[k], edits[i])
  }

  lemma NoEditsAreAcceptable(s: Text)
    ensures Acceptable(s, [])
  {
  }

  lemma AcceptableSnoc(s: Text, edits: seq<Edit>, e: Edit)
    requires Acceptable(s, edits) && Placed(s, e)
    requires forall k :: 0 <= k < |edits| ==> Placed(s, edits[k]) && Apart(s, edits[k], e)
    ensures Acceptable(s, edits + [e])
  {
    hide Apart;
  }

  lemma RejectedIsNotAcceptable(s: Text, edits: seq<Edit>, r: EditResult)
    requires RejectedBecause(s, edits, r) && r != NoEdits
    ensures !Acceptable(s, edits)
  {
    assert edits[r.edit] in edits;
    if r.Ambiguous? {
      var ps: seq<nat> :| |ps| == r.count && Ascending(ps)
                           && forall p :: p in ps <==> MatchesAt(s, edits[r.edit].oldText, p);
      OneOccurrenceIsUnique(s, edits[r.edit].oldText, ps);
    } else if r.Overlapping? {
      assert edits[r.other] in edits;
    }
  }

  // ---------- Simultaneous substitution ----------

  ghost predicate AcceptableSet(s: Text, es: set<Edit>) {
    && (forall e :: e in es ==> Placed(s, e))
    && (forall e, f :: e in es && f in es && e != f ==> Apart(s, e, f))
  }

  /** One pass over the original file from position p: where the span of an edit starts,
      emit its newText and jump past the span; copy every other byte. */
  ghost function Substituted(s: Text, es: set<Edit>, p: nat): Text
    requires AcceptableSet(s, es)
    decreases |s| - p
  {
    if p >= |s| then []
    else if e :| e in es && Start(s, e) == p then e.newText + Substituted(s, es, End(s, e))
    else [s[p]] + Substituted(s, es, p + 1)
  }

  ghost function SetOf(edits: seq<Edit>): set<Edit> {
    set e | e in edits
  }

  lemma AcceptableGivesSet(s: Text, edits: seq<Edit>)
    requires Acceptable(s, edits)
    ensures AcceptableSet(s, SetOf(edits))
  {
    forall e, f | e in edits && f in edits && e != f
      ensures Apart(s, e, f)
    {
      var i :| 0 <= i < |edits| && edits[i] == e;
      var j :| 0 <= j < |edits| && edits[j] == f;
      if i < j {
        assert Apart(s, edits[i], edits[j]);
      } else {
        assert Apart(s, edits[j], edits[i]);
      }
    }
  }

  lemma SubstitutedAtStart(s: Text, es: set<Edit>, e: Edit)
    requires AcceptableSet(s, es) && e in es
    ensures Substituted(s, es, Start(s, e)) == e.newText + Substituted(s, es, End(s, e))
  {
    assert forall f :: f in es && f != e ==> Apart(s, e, f);
  }

  lemma NothingPastTheEnd(s: Text, es: set<Edit>)
    requires AcceptableSet(s, es)
    ensures Substituted(s, es, |s|) == []
  {
  }

  lemma {:induction false} CopyUntouched(s: Text, es: set<Edit>, p: nat, hi: nat)
    requires AcceptableSet(s, es) && p <= hi <= |s|
    requires forall e :: e in es ==> !(p <= Start(s, e) < hi)
    ensures Substituted(s, es, p) == s[p..hi] + Substituted(s, es, hi)
    decreases hi - p
  {
    if p == hi {
      assert s[p..hi] == [];
    } else {
      CopyUntouched(s, es, p + 1, hi);
      PrependToSlice(s, p, hi, Substituted(s, es, hi));
    }
  }

  // ---------- The tool ----------

  ghost predicate Descending(ms: seq<EditMatch>) {
    forall i, j :: 0 <= i < j < |ms| ==> ms[i].start >= ms[j].start
  }

  method InsertByStart(ms: seq<EditMatch>, m: EditMatch) returns (r: seq<EditMatch>)
    requires Descending(ms)
    ensures Descending(r) && multiset(r) == multiset(ms) + multiset{m}
  {
    var k := 0;
    while k < |ms| && ms[k].start >= m.start
      invariant k <= |ms|
      invariant forall j :: 0 <= j < k ==> ms[j].start >= m.start
    {
      k := k + 1;
    }
    InsertMultiset(ms, k, m);
    assert forall j :: k <= j < |ms| ==> ms[j].start < m.start;
    r := ms[..k] + [m] + ms[k..];
    assert forall j :: 0 <= j < |r| ==> r[j] == if j < k then ms[j] else if j == k then m else ms[j - 1];
  }

  /** The library sort sort.Slice with the order "larger start first". */
  method SortByStartDescending(ms: seq<EditMatch>) returns (sorted: seq<EditMatch>)
    ensures multiset(sorted) == multiset(ms)
    ensures Descending(sorted)
  {
    sorted := [];
    for i := 0 to |ms|
      invariant multiset(sorted) == multiset(ms[..i])
      invariant Descending(sorted)
    {
      assert ms[..i + 1] == ms[..i] + [ms[i]];
      sorted := InsertByStart(sorted, ms[i]);
    }
    assert ms[..|ms|] == ms;
  }

  ghost predicate IsMatchOf(s: Text, edits: seq<Edit>, m: EditMatch) {
    && m.edit < |edits| && Placed(s, edits[m.edit])
    && m.start == Start(s, edits[m.edit]) && m.end == End(s, edits[m.edit])
  }

  /** `ms` holds exactly one kind of match for each edit of the list. */
  ghost predicate Covers(s: Text, edits: seq<Edit>, ms: seq<EditMatch>) {
    && (forall m :: m in ms ==> IsMatchOf(s, edits, m))
    && (forall e :: e in edits ==> exists k :: 0 <= k < |ms| && IsMatchOf(s, edits, ms[k]) && edits[ms[k].edit] == e)
    && (forall j, k :: 0 <= j < k < |ms| ==> ms[j].edit != ms[k].edit)
  }

  lemma SortingKeepsTheMatches(s: Text, edits: seq<Edit>, ms: seq<EditMatch>, sorted: seq<EditMatch>)
    requires |ms| == |edits| && multiset(sorted) == multiset(ms)
    requires forall k :: 0 <= k < |ms| ==> ms[k].edit == k && IsMatchOf(s, edits, ms[k])
    ensures Covers(s, edits, sorted)
  {
    PermutationKeepsMembers(ms, sorted);
    assert Distinct(ms);
    PermutationKeepsDistinct(ms, sorted);
    forall e | e in edits
      ensures exists k :: 0 <= k < |sorted| && IsMatchOf(s, edits, sorted[k]) && edits[sorted[k].edit] == e
    {
      var i :| 0 <= i < |edits| && edits[i] == e;
      assert ms[i] in sorted;
    }
    forall j, k | 0 <= j < k < |sorted|
      ensures sorted[j].edit != sorted[k].edit
    {
      assert sorted[j] in ms && sorted[k] in ms;
    }
  }

  /** In descending order every later span ends before the current one starts. */
  lemma LaterSpansEndEarlier(s: Text, edits: seq<Edit>, sorted: seq<EditMatch>, k: nat, j: nat)
    requires Acceptable(s, edits) && Covers(s, edits, sorted) && Descending(sorted)
    requires k < j < |sorted|
    ensures sorted[j].end <= sorted[k].start
  {
    assert sorted[j] in sorted && sorted[k] in sorted;
    var a, b := sorted[j].edit, sorted[k].edit;
    if a < b {
      assert Apart(s, edits[a], edits[b]);
    } else {
      assert Apart(s, edits[b], edits[a]);
    }
  }

  /** Before step k, everything from Hi on is final; the gap [Lo, Hi) is copied unchanged. */
  ghost function Hi(s: Text, sorted: seq<EditMatch>, k: nat): nat
    requires k <= |sorted|
  {
    if k == 0 then |s| else sorted[k - 1].start
  }

  ghost function Lo(sorted: seq<EditMatch>, k: nat): nat
    requires k <= |sorted|
  {
    if k == |sorted| then 0 else sorted[k].end
  }

  lemma GapIsUntouched(s: Text, edits: seq<Edit>, sorted: seq<EditMatch>, k: nat)
    requires Acceptable(s, edits) && Covers(s, edits, sorted) && Descending(sorted)
    requires k <= |sorted|
    ensures Lo(sorted, k) <= Hi(s, sorted, k) <= |s|
    ensures forall f :: f in edits ==> !(Lo(sorted, k) <= Start(s, f) < Hi(s, sorted, k))
  {
    if k < |sorted| {
      assert sorted[k] in sorted;
      if k > 0 {
        LaterSpansEndEarlier(s, edits, sorted, k - 1, k);
      }
    }
    if k > 0 {
      assert sorted[k - 1] in sorted;
    }
    assert k < |sorted| ==> IsMatchOf(s, edits, sorted[k]) && sorted[k].start < sorted[k].end;
    forall f | f in edits
      ensures !(Lo(sorted, k) <= Start(s, f) < Hi(s, sorted, k))
    {
      var j :| 0 <= j < |sorted| && IsMatchOf(s, edits, sorted[j]) && edits[sorted[j].edit] == f;
      assert sorted[j].start == Start(s, f);
      hide Covers, Acceptable, IsMatchOf;
      assert j >= k ==> k < |sorted| && sorted[j].start <= sorted[k].start;
    }
  }

  /** Splicing the last unspliced span extends the finished suffix down to its start. */
  lemma SpliceOne(s: Text, es: set<Edit>, e: Edit, hi: nat, content: Text)
    requires AcceptableSet(s, es) && e in es && End(s, e) <= hi <= |s|
    requires forall f :: f in es ==> !(End(s, e) <= Start(s, f) < hi)
    requires content == s[..hi] + Substituted(s, es, hi)
    ensures content[..Start(s, e)] + e.newText + content[End(s, e)..]
         == s[..Start(s, e)] + Substituted(s, es, Start(s, e))
  {
    CopyUntouched(s, es, End(s, e), hi);
    SubstitutedAtStart(s, es, e);
    ReplaceInPrefix(s, Substituted(s, es, hi), Start(s, e), End(s, e), hi, e.newText);
  }

  /** Back-to-front replacement: positions left of a spliced span never move. */
  method Splice(fileContent: Text, edits: seq<Edit>, sorted: seq<EditMatch>) returns (newContent: Text)
    requires Acceptable(fileContent, edits)
    requires AcceptableSet(fileContent, SetOf(edits))
    requires Covers(fileContent, edits, sorted) && Descending(sorted)
    ensures newContent == Substituted(fileContent, SetOf(edits), 0)
  {
    hide Substituted, Unique;
    ghost var es := SetOf(edits);
    newContent := fileContent;
    NothingPastTheEnd(fileContent, es);
    for k := 0 to |sorted|
      invariant Hi(fileContent, sorted, k) <= |fileContent|
      invariant newContent == fileContent[..Hi(fileContent, sorted, k)]
                              + Substituted(fileContent, es, Hi(fileContent, sorted, k))
    {
      var m := sorted[k];
      assert IsMatchOf(fileContent, edits, m);
      GapIsUntouched(fileContent, edits, sorted, k);
      SpliceOne(fileContent, es, edits[m.edit], Hi(fileContent, sorted, k), newContent);
      var before := newContent[..m.start];
      var after := newContent[m.end..];
      newContent := before + edits[m.edit].newText + after;
    }
    GapIsUntouched(fileContent, edits, sorted, |sorted|);
    CopyUntouched(fileContent, es, 0, Hi(fileContent, sorted, |sorted|));
  }

  method EditFile(fileContent: Text, edits: seq<Edit>) returns (r: EditResult)
    ensures r.Written? <==> edits != [] && Acceptable(fileContent, edits)
    ensures r.Written? <==> edits != [] && UniqueAndDisjoint(fileContent, edits)
    ensures r.Written? ==>
              && AcceptableSet(fileContent, SetOf(edits))
              && r.content == Substituted(fileContent, SetOf(edits), 0)
    ensures !r.Written? ==> RejectedBecause(fileContent, edits, r)
  {
    if |edits| == 0 {
      return NoEdits;
    }
    AcceptableMeansDisjoint(fileContent, edits);
    NoEditsAreAcceptable(fileContent);
    hide UniqueAndDisjoint, Covered, Within, Unique, Acceptable;
    assert edits[..0] == [];
    var matches: seq<EditMatch> := [];
    for i := 0 to |edits|
      invariant |matches| == i
      invariant Acceptable(fileContent, edits[..i])
      invariant forall k :: 0 <= k < i ==> matches[k].edit == k && IsMatchOf(fileContent, edits, matches[k])
    {
      var edit := edits[i];
      assert edit in edits;
      if edit.oldText == [] {
        r := EmptyOldText(i);
        RejectedIsNotAcceptable(fileContent, edits, r);
        return;
      }
      var occurrences := FindOccurrences(fileContent, edit.oldText);
      OneOccurrenceIsUnique(fileContent, edit.oldText, occurrences);
      if |occurrences| == 0 {
        r := NotFound(i);
        RejectedIsNotAcceptable(fileContent, edits, r);
        return;
      }
      if |occurrences| > 1 {
        r := Ambiguous(i, |occurrences|);
        RejectedIsNotAcceptable(fileContent, edits, r);
        return;
      }
      var matchStart := occurrences[0];
      var matchEnd := matchStart + |edit.oldText|;
      for j := 0 to |matches|
        invariant forall k :: 0 <= k < j ==> Apart(fileContent, edits[k], edit)
      {
        if Overlaps(matchStart, matchEnd, matches[j].start, matches[j].end) {
          r := Overlapping(i, matches[j].edit);
          RejectedIsNotAcceptable(fileContent, edits, r);
          return;
        }
      }
      matches := matches + [EditMatch(matchStart, matchEnd, i)];
      AcceptableSnoc(fileContent, edits[..i], edit);
      assert edits[..i + 1] == edits[..i] + [edit];
    }
    assert edits[..|edits|] == edits;
    AcceptableGivesSet(fileContent, edits);
    var sorted := SortByStartDescending(matches);
    SortingKeepsTheMatches(fileContent, edits, matches, sorted);
    var newContent := Splice(fileContent, edits, sorted);
    r := Written(newContent);
  }

  // ---------- Order of the edit list ----------

  lemma AcceptableIsASetProperty(s: Text, edits: seq<Edit>)
    ensures Acceptable(s, edits) <==> Distinct(edits) && AcceptableSet(s, SetOf(edits))
  {
    if Acceptable(s, edits) {
      AcceptableGivesSet(s, edits);
      forall i, j | 0 <= i < j < |edits|
        ensures edits[i] != edits[j]
      {
        assert edits[i] in edits && Apart(s, edits[i], edits[j]);
      }
    }
    if Distinct(edits) && AcceptableSet(s, SetOf(edits)) {
      forall i, j | 0 <= i < j < |edits|
        ensures edits[i] in SetOf(edits) && edits[j] in SetOf(edits) && Apart(s, edits[i], edits[j])
      {
      }
    }
  }

  /** Reordering the edit list changes neither acceptance nor the file written. */
  lemma OrderDoesNotMatter(s: Text, edits: seq<Edit>, permuted: seq<Edit>)
    requires multiset(edits) == multiset(permuted)
    ensures Acceptable(s, edits) <==> Acceptable(s, permuted)
    ensures Acceptable(s, edits) ==>
              && AcceptableSet(s, SetOf(edits)) && AcceptableSet(s, SetOf(permuted))
              && Substituted(s, SetOf(edits), 0) == Substituted(s, SetOf(permuted), 0)
  {
    PermutationKeepsMembers(edits, permuted);
    assert SetOf(edits) == SetOf(permuted);
    AcceptableIsASetProperty(s, edits);
    AcceptableIsASetProperty(s, permuted);
    if Distinct(edits) {
      PermutationKeepsDistinct(edits, permuted);
    }
    if Distinct(permuted) {
      PermutationKeepsDistinct(permuted, edits);
    }
  }

  // ---------- Length ----------

  function Growth(edits: seq<Edit>): int {
    if edits == [] then 0 else |edits[0].newText| - |edits[0].oldText| + Growth(edits[1..])
  }

  /** The growth contributed by the edits whose span starts at or after p. */
  ghost function GrowthFrom(s: Text, edits: seq<Edit>, p: nat): int
    requires forall e :: e in edits ==> Placed(s, e)
  {
    if edits == [] then 0
    else (if Start(s, edits[0]) >= p then |edits[0].newText| - |edits[0].oldText| else 0)
         + GrowthFrom(s, edits[1..], p)
  }

  lemma {:induction false} GrowthFromStart(s: Text, edits: seq<Edit>)
    requires forall e :: e in edits ==> Placed(s, e)
    ensures GrowthFrom(s, edits, 0) == Growth(edits)
  {
    if edits == [] {
    } else {
      GrowthFromStart(s, edits[1..]);
    }
  }

  /** Moving the bound from p to q drops the one edit that starts in between, if any. */
  lemma {:induction false} GrowthStep(s: Text, edits: seq<Edit>, p: nat, q: nat, e: Edit)
    requires forall f :: f in edits ==> Placed(s, f)
    requires Distinct(edits) && p <= q
    requires forall f :: f in edits && p <= Start(s, f) < q ==> f == e
    ensures GrowthFrom(s, edits, p) == GrowthFrom(s, edits, q)
                                       + if e in edits && p <= Start(s, e) < q then |e.newText| - |e.oldText| else 0
  {
    if edits == [] {
    } else {
      assert edits[0] in edits && edits == [edits[0]] + edits[1..];
      GrowthStep(s, edits[1..], p, q, e);
    }
  }

  lemma {:induction false} LengthFrom(s: Text, edits: seq<Edit>, p: nat)
    requires Acceptable(s, edits) && AcceptableSet(s, SetOf(edits)) && p <= |s|
    ensures |Substituted(s, SetOf(edits), p)| == |s| - p + GrowthFrom(s, edits, p)
    decreases |s| - p
  {
    var es := SetOf(edits);
    AcceptableIsASetProperty(s, edits);
    if e :| e in es && Start(s, e) == p && p < |s| {
      SubstitutedAtStart(s, es, e);
      LengthFrom(s, edits, End(s, e));
      assert forall f :: f in es && f != e ==> Apart(s, e, f);
      GrowthStep(s, edits, p, End(s, e), e);
    } else {
      var q := if p < |s| then p + 1 else p;
      if p < |s| {
        LengthFrom(s, edits, q);
        GrowthStep(s, edits, p, q, Edit([], []));
      } else {
        NothingStartsAtTheEnd(s, edits);
      }
    }
  }

  lemma {:induction false} NothingStartsAtTheEnd(s: Text, edits: seq<Edit>)
    requires forall f :: f in edits ==> Placed(s, f)
    ensures GrowthFrom(s, edits, |s|) == 0
  {
    if edits == [] {
    } else {
      assert edits[0] in edits;
      NothingStartsAtTheEnd(s, edits[1..]);
    }
  }

  /** The file grows by the sum of the newText lengths minus the oldText lengths. */
  lemma EditedLength(s: Text, edits: seq<Edit>)
    requires Acceptable(s, edits) && AcceptableSet(s, SetOf(edits))
    ensures |Substituted(s, SetOf(edits), 0)| == |s| + Growth(edits)
  {
    LengthFrom(s, edits, 0);
    GrowthFromStart(s, edits);
  }

  // ---------- Round trip ----------

  /** A position of the original file that is not strictly inside a replaced span. */
  ghost predicate Boundary(s: Text, es: set<Edit>, p: nat)
    requires AcceptableSet(s, es)
  {
    p <= |s| && forall e :: e in es ==> !(Start(s, e) < p < End(s, e))
  }

  /** Where a boundary of the original file ends up in the edited file. */
  ghost function Image(s: Text, es: set<Edit>, p: nat): int
    requires AcceptableSet(s, es)
  {
    |Substituted(s, es, 0)| - |Substituted(s, es, p)|
  }

  ghost predicate NewTextsNonEmpty(es: set<Edit>) {
    forall e :: e in es ==> e.newText != []
  }

  lemma SpanEndsAreBoundaries(s: Text, es: set<Edit>, e: Edit)
    requires AcceptableSet(s, es) && e in es
    ensures Boundary(s, es, Start(s, e)) && Boundary(s, es, End(s, e))
  {
    assert forall f :: f in es && f != e ==> Apart(s, e, f);
  }

  /** The tail of the edited file from the image of a boundary is the edited tail. */
  lemma {:induction false} TailOfEdited(s: Text, es: set<Edit>, p: nat, q: nat)
    requires AcceptableSet(s, es) && NewTextsNonEmpty(es)
    requires p <= q && Boundary(s, es, p) && Boundary(s, es, q)
    ensures |Substituted(s, es, q)| <= |Substituted(s, es, p)|
    ensures p < q ==> |Substituted(s, es, q)| < |Substituted(s, es, p)|
    ensures Substituted(s, es, p)[|Substituted(s, es, p)| - |Substituted(s, es, q)|..] == Substituted(s, es, q)
    decreases |s| - p
  {
    hide Substituted, Unique;
    if p == q {
    } else {
      if e :| e in es && Start(s, e) == p {
        SpanEndsAreBoundaries(s, es, e);
        SubstitutedAtStart(s, es, e);
        TailOfEdited(s, es, End(s, e), q);
        TailOfConcat(e.newText, Substituted(s, es, End(s, e)), Substituted(s, es, q));
      } else {
        CopyOne(s, es, p);
        TailOfEdited(s, es, p + 1, q);
        TailOfConcat([s[p]], Substituted(s, es, p + 1), Substituted(s, es, q));
      }
    }
  }

  lemma CopyOne(s: Text, es: set<Edit>, p: nat)
    requires AcceptableSet(s, es) && p < |s|
    requires forall e :: e in es ==> Start(s, e) != p
    ensures Substituted(s, es, p) == [s[p]] + Substituted(s, es, p + 1)
  {
  }

  lemma {:induction false} ImageIsMonotone(s: Text, es: set<Edit>, p: nat, q: nat)
    requires AcceptableSet(s, es) && NewTextsNonEmpty(es)
    requires Boundary(s, es, p) && Boundary(s, es, q)
    ensures 0 <= Image(s, es, p) <= |Substituted(s, es, 0)|
    ensures Substituted(s, es, 0)[Image(s, es, p)..] == Substituted(s, es, p)
    ensures p < q ==> Image(s, es, p) < Image(s, es, q)
    ensures q < p ==> Image(s, es, q) < Image(s, es, p)
  {
    hide Substituted, Unique;
    TailOfEdited(s, es, 0, p);
    if p < q {
      TailOfEdited(s, es, p, q);
    } else {
      TailOfEdited(s, es, q, p);
    }
  }

  function Swap(e: Edit): Edit {
    Edit(e.newText, e.oldText)
  }

  function Swapped(edits: seq<Edit>): (r: seq<Edit>)
    ensures |r| == |edits| && forall i :: 0 <= i < |edits| ==> r[i] == Swap(edits[i])
  {
    seq(|edits|, i requires 0 <= i < |edits| => Swap(edits[i]))
  }

  ghost predicate Reversible(s: Text, es: set<Edit>)
    requires AcceptableSet(s, es)
  {
    forall e :: e in es ==> e.newText != [] && Unique(Substituted(s, es, 0), e.newText)
  }

  /** A newText that occurs only once occurs where its own edit put it. */
  lemma NewTextLandsAtItsImage(s: Text, es: set<Edit>, e: Edit)
    requires AcceptableSet(s, es) && Reversible(s, es) && e in es
    ensures Placed(Substituted(s, es, 0), Swap(e))
    ensures Start(Substituted(s, es, 0), Swap(e)) == Image(s, es, Start(s, e))
    ensures End(Substituted(s, es, 0), Swap(e)) == Image(s, es, End(s, e))
  {
    var r := Substituted(s, es, 0);
    SpanEndsAreBoundaries(s, es, e);
    ImageIsMonotone(s, es, Start(s, e), End(s, e));
    SubstitutedAtStart(s, es, e);
    var at := Image(s, es, Start(s, e));
    assert r[at..] == e.newText + Substituted(s, es, End(s, e));
    assert r[at..at + |e.newText|] == r[at..][..|e.newText|] == e.newText;
    assert MatchesAt(r, e.newText, at);
  }

  lemma {:induction false} SwappedIsAcceptable(s: Text, es: set<Edit>, back: set<Edit>)
    requires AcceptableSet(s, es) && Reversible(s, es)
    requires back == set e | e in es :: Swap(e)
    ensures AcceptableSet(Substituted(s, es, 0), back)
  {
    var r := Substituted(s, es, 0);
    forall e | e in es
      ensures Placed(r, Swap(e))
    {
      NewTextLandsAtItsImage(s, es, e);
    }
    forall e, f | e in es && f in es && Swap(e) != Swap(f)
      ensures Apart(r, Swap(e), Swap(f))
    {
      SwappedStayApart(s, es, e, f);
    }
  }

  lemma SwappedStayApart(s: Text, es: set<Edit>, e: Edit, f: Edit)
    requires AcceptableSet(s, es) && Reversible(s, es) && e in es && f in es && e != f
    requires Placed(Substituted(s, es, 0), Swap(e)) && Placed(Substituted(s, es, 0), Swap(f))
    ensures Apart(Substituted(s, es, 0), Swap(e), Swap(f))
  {
    hide Substituted, Unique;
    assert Apart(s, e, f);
    NewTextLandsAtItsImage(s, es, e);
    NewTextLandsAtItsImage(s, es, f);
    SpanEndsAreBoundaries(s, es, e);
    SpanEndsAreBoundaries(s, es, f);
    if End(s, e) <= Start(s, f) {
      ImageIsMonotone(s, es, End(s, e), Start(s, f));
    } else {
      ImageIsMonotone(s, es, End(s, f), Start(s, e));
    }
  }

  /** Bytes copied by the edit are copied back: no exchanged edit starts on them. */
  lemma NothingStartsOnACopiedByte(s: Text, es: set<Edit>, back: set<Edit>, p: nat)
    requires AcceptableSet(s, es) && Reversible(s, es) && Boundary(s, es, p) && p < |s|
    requires back == (set e | e in es :: Swap(e)) && AcceptableSet(Substituted(s, es, 0), back)
    requires forall e :: e in es ==> Start(s, e) != p
    ensures forall f :: f in back ==> Start(Substituted(s, es, 0), f) != Image(s, es, p)
    ensures 0 <= Image(s, es, p) < |Substituted(s, es, 0)|
    ensures Substituted(s, es, 0)[Image(s, es, p)] == s[p]
    ensures Image(s, es, p + 1) == Image(s, es, p) + 1
  {
    ImageIsMonotone(s, es, p, p);
    var r := Substituted(s, es, 0);
    assert Substituted(s, es, p) == [s[p]] + Substituted(s, es, p + 1);
    assert r[Image(s, es, p)] == r[Image(s, es, p)..][0];
    forall f | f in back
      ensures Start(r, f) != Image(s, es, p)
    {
      var e :| e in es && f == Swap(e);
      SpanEndsAreBoundaries(s, es, e);
      NewTextLandsAtItsImage(s, es, e);
      ImageIsMonotone(s, es, p, Start(s, e));
    }
  }

  lemma {:induction false} RestoredAtSpan(s: Text, es: set<Edit>, back: set<Edit>, e: Edit)
    requires AcceptableSet(s, es) && Reversible(s, es) && e in es
    requires back == (set f | f in es :: Swap(f)) && AcceptableSet(Substituted(s, es, 0), back)
    requires 0 <= Image(s, es, End(s, e))
    requires Substituted(Substituted(s, es, 0), back, Image(s, es, End(s, e))) == s[End(s, e)..]
    ensures 0 <= Image(s, es, Start(s, e))
    ensures Substituted(Substituted(s, es, 0), back, Image(s, es, Start(s, e))) == s[Start(s, e)..]
  {
    hide Substituted, Unique;
    NewTextLandsAtItsImage(s, es, e);
    SubstitutedAtStart(Substituted(s, es, 0), back, Swap(e));
    assert s[Start(s, e)..] == e.oldText + s[End(s, e)..];
  }

  lemma CopyBack(r: Text, back: set<Edit>, at: nat, s: Text, p: nat)
    requires AcceptableSet(r, back) && at < |r| && p < |s| && r[at] == s[p]
    requires forall f :: f in back ==> Start(r, f) != at
    requires Substituted(r, back, at + 1) == s[p + 1..]
    ensures Substituted(r, back, at) == s[p..]
  {
    CopyOne(r, back, at);
    assert s[p..] == [s[p]] + s[p + 1..];
  }

  lemma RestoredAtCopy(s: Text, es: set<Edit>, back: set<Edit>, p: nat)
    requires AcceptableSet(s, es) && Reversible(s, es) && Boundary(s, es, p) && p < |s|
    requires back == (set f | f in es :: Swap(f)) && AcceptableSet(Substituted(s, es, 0), back)
    requires forall e :: e in es ==> Start(s, e) != p
    requires 0 <= Image(s, es, p + 1)
    requires Substituted(Substituted(s, es, 0), back, Image(s, es, p + 1)) == s[p + 1..]
    ensures 0 <= Image(s, es, p)
    ensures Substituted(Substituted(s, es, 0), back, Image(s, es, p)) == s[p..]
  {
    hide Substituted, Unique;
    NothingStartsOnACopiedByte(s, es, back, p);
    CopyBack(Substituted(s, es, 0), back, Image(s, es, p), s, p);
  }

  lemma {:induction false} RestoredFrom(s: Text, es: set<Edit>, back: set<Edit>, p: nat)
    requires AcceptableSet(s, es) && Reversible(s, es) && Boundary(s, es, p)
    requires back == (set f | f in es :: Swap(f)) && AcceptableSet(Substituted(s, es, 0), back)
    ensures 0 <= Image(s, es, p)
    ensures Substituted(Substituted(s, es, 0), back, Image(s, es, p)) == s[p..]
    decreases |s| - p
  {
    hide Substituted, Unique;
    if p == |s| {
      NothingPastTheEnd(s, es);
      NothingPastTheEnd(Substituted(s, es, 0), back);
    } else if e :| e in es && Start(s, e) == p {
      SpanEndsAreBoundaries(s, es, e);
      RestoredFrom(s, es, back, End(s, e));
      RestoredAtSpan(s, es, back, e);
    } else {
      RestoredFrom(s, es, back, p + 1);
      RestoredAtCopy(s, es, back, p);
    }
  }

  /** Undo: when every newText is non-empty and occurs exactly once in the edited file,
      the edits with oldText and newText exchanged are accepted and restore the original. */
  lemma EditRoundTrip(s: Text, edits: seq<Edit>)
    requires Acceptable(s, edits) && AcceptableSet(s, SetOf(edits))
    requires Reversible(s, SetOf(edits))
    ensures var edited := Substituted(s, SetOf(edits), 0);
            && Acceptable(edited, Swapped(edits))
            && AcceptableSet(edited, SetOf(Swapped(edits)))
            && Substituted(edited, SetOf(Swapped(edits)), 0) == s
  {
    var es := SetOf(edits);
    var back := set e | e in es :: Swap(e);
    AcceptableIsASetProperty(s, edits);
    SwappedIsAcceptable(s, es, back);
    SetOfSwapped(edits);
    assert Distinct(Swapped(edits)) by {
      assert forall i, j :: 0 <= i < j < |edits| ==> Swap(edits[i]) != Swap(edits[j]);
    }
    AcceptableIsASetProperty(Substituted(s, es, 0), Swapped(edits));
    RestoredFrom(s, es, back, 0);
    assert s[0..] == s;
  }

  lemma SetOfSwapped(edits: seq<Edit>)
    ensures SetOf(Swapped(edits)) == set e | e in SetOf(edits) :: Swap(e)
  {
    forall f | f in SetOf(Swapped(edits))
      ensures exists e :: e in edits && f == Swap(e)
    {
      var i :| 0 <= i < |edits| && Swapped(edits)[i] == f;
      assert edits[i] in edits;
    }
    forall e | e in edits
      ensures Swap(e) in Swapped(edits)
    {
      var i :| 0 <= i < |edits| && edits[i] == e;
      assert Swapped(edits)[i] == Swap(e);
    }
  }
}
