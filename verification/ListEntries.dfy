/** How list_files turns the files that ripgrep prints into the requested entry set
    (extensions/list_files/list_files_logic.go).  Paths are strings of bytes; strings are
    compared as Go compares them, byte by byte. */
module ListEntries {
  import opened GoStrings
  import opened Sequences

  type Path = string

  // ---------- String order ----------

  predicate LessEq(a: Path, b: Path) {
    a == "" || (b != "" && (a[0] < b[0] || (a[0] == b[0] && LessEq(a[1..], b[1..]))))
  }

  predicate Less(a: Path, b: Path) {
    LessEq(a, b) && a != b
  }

  lemma {:induction false} OrderIsTotal(a: Path, b: Path)
    ensures LessEq(a, b) || LessEq(b, a)
    ensures LessEq(a, b) && LessEq(b, a) ==> a == b
  {
    if a == "" || b == "" || a[0] != b[0] {
    } else {
      OrderIsTotal(a[1..], b[1..]);
      assert a == [a[0]] + a[1..] && b == [b[0]] + b[1..];
    }
  }

  lemma {:induction false} OrderIsTransitive(a: Path, b: Path, c: Path)
    requires LessEq(a, b) && LessEq(b, c)
    ensures LessEq(a, c)
  {
    if a == "" || a[0] != b[0] || b[0] != c[0] {
    } else {
      OrderIsTransitive(a[1..], b[1..], c[1..]);
    }
  }

  /** a and b agree before k; there a ends, or has the smaller byte. */
  predicate SmallerAt(a: Path, b: Path, k: int) {
    0 <= k <= |a| && k < |b| && a[..k] == b[..k] && (k == |a| || a[k] < b[k])
  }

  /** The order is the lexicographic one: a prefix comes first, else the first difference decides. */
  lemma {:induction false} OrderIsLexicographic(a: Path, b: Path)
    ensures Less(a, b) <==> exists k :: SmallerAt(a, b, k)
  {
    if a == "" || b == "" || a[0] != b[0] {
      if Less(a, b) {
        assert SmallerAt(a, b, 0);
      }
    } else {
      OrderIsLexicographic(a[1..], b[1..]);
      assert a == [a[0]] + a[1..] && b == [b[0]] + b[1..];
      if k :| SmallerAt(a[1..], b[1..], k) {
        assert a[..k + 1] == [a[0]] + a[1..][..k] && b[..k + 1] == [b[0]] + b[1..][..k];
        assert SmallerAt(a, b, k + 1);
      }
      if k :| SmallerAt(a, b, k) {
        assert k > 0 && a[1..][..k - 1] == a[..k][1..] && b[1..][..k - 1] == b[..k][1..];
        assert SmallerAt(a[1..], b[1..], k - 1);
      }
    }
  }

  predicate Sorted(s: seq<Path>) {
    forall i, j :: 0 <= i < j < |s| ==> LessEq(s[i], s[j])
  }

  predicate StrictlyIncreasing(s: seq<Path>) {
    forall i, j :: 0 <= i < j < |s| ==> Less(s[i], s[j])
  }

  method Insert(s: seq<Path>, x: Path) returns (r: seq<Path>)
    requires Sorted(s)
    ensures Sorted(r) && multiset(r) == multiset(s) + multiset{x}
  {
    var k := 0;
    while k < |s| && LessEq(s[k], x)
      invariant k <= |s|
      invariant forall j :: 0 <= j < k ==> LessEq(s[j], x)
    {
      k := k + 1;
    }
    forall j | k <= j < |s|
      ensures LessEq(x, s[j])
    {
      OrderIsTotal(x, s[k]);
      if k < j {
        OrderIsTransitive(x, s[k], s[j]);
      }
    }
    InsertMultiset(s, k, x);
    r := s[..k] + [x] + s[k..];
    assert forall j :: 0 <= j < |r| ==> r[j] == if j < k then s[j] else if j == k then x else s[j - 1];
  }

  /** The library sort sort.Strings. */
  method SortStrings(s: seq<Path>) returns (r: seq<Path>)
    ensures Sorted(r) && multiset(r) == multiset(s)
  {
    r := [];
    for i := 0 to |s|
      invariant Sorted(r) && multiset(r) == multiset(s[..i])
    {
      assert s[..i + 1] == s[..i] + [s[i]];
      r := Insert(r, s[i]);
    }
    assert s[..|s|] == s;
  }

  // ---------- Directories ----------

  /** filepath.Dir of a path without empty or dot components. */
  function Dir(p: Path): Path {
    var i := LastSlash(p);
    if i < 0 then "." else if i == 0 then "/" else p[..i]
  }

  /** d is a proper ancestor directory of p, written with its trailing slash. */
  ghost predicate AncestorDir(p: Path, d: Path) {
    exists i :: 0 < i < |p| && p[i] == '/' && d == p[..i + 1] && p[..i] != "." && p[..i] != "/"
  }

  ghost predicate SomeAncestorDir(files: seq<Path>, d: Path) {
    exists f :: f in files && AncestorDir(f, d)
  }

  /** The loop of deriveDirs for one file: walk up until the root of the listing. */
  method AddAncestors(found: set<Path>, f: Path) returns (r: set<Path>)
    ensures forall d :: d in r <==> d in found || AncestorDir(f, d)
  {
    r := found;
    var dir := Dir(f);
    ghost var at := LastSlash(f);
    while dir != "." && dir != "/" && dir != ""
      invariant -1 <= at < |f|
      invariant at >= 0 ==> f[at] == '/'
      invariant dir == if at < 0 then "." else if at == 0 then "/" else f[..at]
      invariant forall d :: d in found ==> d in r
      invariant forall d :: d in r ==> d in found || AncestorDir(f, d)
      invariant forall i :: at < i < |f| && f[i] == '/' && f[..i] != "." && f[..i] != "/" ==> f[..i + 1] in r
      decreases at
    {
      assert dir + "/" == f[..at + 1];
      r := r + {dir + "/"};
      at := LastSlash(dir);
      dir := Dir(dir);
    }
    forall d | AncestorDir(f, d)
      ensures d in r
    {
      var i :| 0 < i < |f| && f[i] == '/' && d == f[..i + 1] && f[..i] != "." && f[..i] != "/";
      assert at < i;
    }
  }

  method DeriveDirs(files: seq<Path>) returns (dirs: seq<Path>)
    ensures StrictlyIncreasing(dirs)
    ensures forall d :: d in dirs <==> SomeAncestorDir(files, d)
  {
    var found: set<Path> := {};
    for k := 0 to |files|
      invariant forall d :: d in found <==> SomeAncestorDir(files[..k], d)
    {
      found := AddAncestors(found, files[k]);
      assert files[..k + 1] == files[..k] + [files[k]];
    }
    assert files[..|files|] == files;
    dirs := [];
    var rest := found;
    while rest != {}
      invariant rest <= found && Distinct(dirs)
      invariant forall d :: d in dirs <==> d in found && d !in rest
      decreases |rest|
    {
      var d :| d in rest;
      dirs := dirs + [d];
      rest := rest - {d};
    }
    ghost var unsorted := dirs;
    dirs := SortStrings(dirs);
    PermutationKeepsMembers(dirs, unsorted);
    PermutationKeepsDistinct(unsorted, dirs);
  }

  // ---------- Deduplication in place ----------

  /** The first of every run of equal neighbours. */
  function Dedupe(s: seq<Path>): (r: seq<Path>)
    ensures s != [] ==> r != [] && r[|r| - 1] == s[|s| - 1]
    ensures |r| <= |s|
  {
    if |s| <= 1 then s
    else
      var before := Dedupe(s[..|s| - 1]);
      if s[|s| - 1] != s[|s| - 2] then before + [s[|s| - 1]] else before
  }

  lemma {:induction false} DedupeOfSorted(s: seq<Path>)
    requires Sorted(s)
    ensures StrictlyIncreasing(Dedupe(s))
    ensures forall x :: x in Dedupe(s) <==> x in s
  {
    if |s| <= 1 {
    } else {
      var init, last := s[..|s| - 1], s[|s| - 1];
      DedupeOfSorted(init);
      assert s == init + [last];
      var before := Dedupe(init);
      if last != s[|s| - 2] {
        forall i | 0 <= i < |before|
          ensures Less(before[i], last)
        {
          assert before[i] in init;
          var j :| 0 <= j < |init| && init[j] == before[i];
          assert LessEq(s[j], s[|s| - 2]) || j == |s| - 2;
          OrderIsTotal(s[|s| - 2], last);
        }
      }
    }
  }

  /** Writes the result into the front of the array it reads; out = a[..n]. */
  method DedupeSorted(a: array<Path>) returns (n: nat)
    modifies a
    ensures n <= a.Length && a[..n] == Dedupe(old(a[..]))
  {
    if a.Length == 0 {
      return 0;
    }
    n := 1;
    for i := 1 to a.Length
      invariant 1 <= n <= i
      // nothing that is still to be read was overwritten
      invariant forall j :: i <= j < a.Length ==> a[j] == old(a[..])[j]
      invariant a[..n] == Dedupe(old(a[..])[..i])
    {
      ghost var s := old(a[..]);
      assert s[..i + 1][..i] == s[..i];
      assert a[i] == s[i] && a[n - 1] == a[..n][n - 1] == s[i - 1];
      if a[i] != a[n - 1] {
        a[n] := a[i];
        n := n + 1;
      }
    }
    assert old(a[..])[..a.Length] == old(a[..]);
  }

  // ---------- The entry set ----------

  datatype EntryType = Files | Dirs | Both

  method BuildEntries(files: seq<Path>, reqType: EntryType) returns (entries: seq<Path>)
    ensures reqType.Files? ==> Sorted(entries) && multiset(entries) == multiset(files)
    ensures !reqType.Files? ==> StrictlyIncreasing(entries)
    ensures reqType.Dirs? ==> forall d :: d in entries <==> SomeAncestorDir(files, d)
    ensures reqType.Both? ==> forall p :: p in entries <==> p in files || SomeAncestorDir(files, p)
  {
    match reqType
    case Files => entries := SortStrings(files);
    case Dirs => entries := DeriveDirs(files);
    case Both =>
      var dirs := DeriveDirs(files);
      var merged := SortStrings(files + dirs);
      PermutationKeepsMembers(merged, files + dirs);
      var a := new Path[|merged|](i requires 0 <= i < |merged| => merged[i]);
      assert a[..] == merged;
      var n := DedupeSorted(a);
      DedupeOfSorted(merged);
      entries := a[..n];
  }
}
