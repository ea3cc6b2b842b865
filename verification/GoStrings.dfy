/** The few string functions of Go's library that several components use. */
module GoStrings {

  /** unicode.IsSpace. */
  predicate IsSpace(r: char) {
    || '\t' <= r <= '\r' || r == ' ' || r == '\U{85}' || r == '\U{A0}' || r == '\U{1680}'
    || '\U{2000}' <= r <= '\U{200A}' || r == '\U{2028}' || r == '\U{2029}' || r == '\U{202F}'
    || r == '\U{205F}' || r == '\U{3000}'
  }

  function TrimLeft(s: string): string {
    if s != "" && IsSpace(s[0]) then TrimLeft(s[1..]) else s
  }

  function TrimRight(s: string): string {
    if s != "" && IsSpace(s[|s| - 1]) then TrimRight(s[..|s| - 1]) else s
  }

  /** strings.TrimSpace. */
  function TrimSpace(s: string): string {
    TrimRight(TrimLeft(s))
  }

  lemma {:induction false} TrimLeftEdge(s: string)
    ensures TrimLeft(s) == "" || !IsSpace(TrimLeft(s)[0])
  {
    if s == "" || !IsSpace(s[0]) {
    } else {
      TrimLeftEdge(s[1..]);
    }
  }

  lemma {:induction false} TrimRightEdges(s: string)
    ensures TrimRight(s) == "" || !IsSpace(TrimRight(s)[|TrimRight(s)| - 1])
    ensures TrimRight(s) <= s
  {
    if s == "" || !IsSpace(s[|s| - 1]) {
    } else {
      TrimRightEdges(s[..|s| - 1]);
    }
  }

  predicate AllSpaces(s: string) {
    forall i :: 0 <= i < |s| ==> IsSpace(s[i])
  }

  lemma {:induction false} TrimLeftRemovesSpaces(s: string) returns (a: string)
    ensures AllSpaces(a) && s == a + TrimLeft(s)
  {
    if s == "" || !IsSpace(s[0]) {
      a := "";
    } else {
      a := TrimLeftRemovesSpaces(s[1..]);
      a := [s[0]] + a;
    }
  }

  lemma {:induction false} TrimRightRemovesSpaces(s: string) returns (b: string)
    ensures AllSpaces(b) && s == TrimRight(s) + b
  {
    if s == "" || !IsSpace(s[|s| - 1]) {
      b := "";
    } else {
      b := TrimRightRemovesSpaces(s[..|s| - 1]);
      b := b + [s[|s| - 1]];
    }
  }

  /** Trimming removes white space at both ends, all of it, and nothing else. */
  lemma {:induction false} TrimSpaceRemovesTheEdges(s: string) returns (a: string, b: string)
    ensures AllSpaces(a) && AllSpaces(b) && s == a + TrimSpace(s) + b
    ensures TrimSpace(s) != "" ==> !IsSpace(TrimSpace(s)[0]) && !IsSpace(TrimSpace(s)[|TrimSpace(s)| - 1])
  {
    a := TrimLeftRemovesSpaces(s);
    b := TrimRightRemovesSpaces(TrimLeft(s));
    TrimLeftEdge(s);
    TrimRightEdges(TrimLeft(s));
    assert a + (TrimSpace(s) + b) == a + TrimSpace(s) + b;
  }

  lemma TrimIsIdempotent(s: string)
    ensures TrimSpace(TrimSpace(s)) == TrimSpace(s)
  {
    TrimLeftEdge(s);
    TrimRightEdges(TrimLeft(s));
    var t := TrimSpace(s);
    assert t != "" ==> t[0] == TrimLeft(s)[0];
    assert TrimLeft(t) == t;
  }

  /** strings.LastIndex(p, "/"), -1 when there is none. */
  function LastSlash(p: string): (i: int)
    ensures -1 <= i < |p|
    ensures i >= 0 ==> p[i] == '/'
    ensures forall j :: i < j < |p| ==> p[j] != '/'
  {
    if p == "" then -1
    else if p[|p| - 1] == '/' then |p| - 1
    else LastSlash(p[..|p| - 1])
  }
}
