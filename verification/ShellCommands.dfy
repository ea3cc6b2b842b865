/** The command policy of the permissions extension (extensions/permissions/commandrules.go).

    Two loops of the source run the same quote/escape automaton: one looks for shell
    operators, the other cuts the command at separators.  Commands are sequences of runes.
    Glob matching of a rule and the environment-variable check are parameters. */
module ShellCommands {
  import opened Options
  import opened GoStrings

  // ---------- The automaton ----------

  datatype Scan = Scan(quote: Option<char>, escaped: bool)

  const START := Scan(None, false)

  function Step(s: Scan, r: char): Scan {
    if s.escaped then s.(escaped := false)
    else if r == '\\' && s.quote != Some('\'') then s.(escaped := true)
    else if s.quote.Some? then (if s.quote == Some(r) then s.(quote := None) else s)
    else if r == '\'' || r == '\"' then s.(quote := Some(r))
    else s
  }

  /** Does the rune take part in the command line, neither escaped, quoted nor a quote? */
  predicate Plain(s: Scan, r: char) {
    !s.escaped && !(r == '\\' && s.quote != Some('\'')) && s.quote == None && r != '\'' && r != '\"'
  }

  /** The state after scanning c from the start. */
  function After(c: string): Scan {
    if c == "" then START else Step(After(c[..|c| - 1]), c[|c| - 1])
  }

  predicate IsOperator(r: char) {
    r in ";&|<>\n"
  }

  predicate IsSeparator(r: char) {
    r in ";|&\n"
  }

  ghost predicate HasOperator(c: string) {
    exists i :: 0 <= i < |c| && Plain(After(c[..i]), c[i]) && IsOperator(c[i])
  }

  ghost predicate HasSeparator(c: string) {
    exists i :: 0 <= i < |c| && Plain(After(c[..i]), c[i]) && IsSeparator(c[i])
  }

  method HasShellOperator(command: string) returns (has: bool)
    ensures has <==> HasOperator(command)
  {
    var quote: Option<char> := None;
    var escaped := false;
    for i := 0 to |command|
      invariant Scan(quote, escaped) == After(command[..i])
      invariant forall j :: 0 <= j < i ==> !(Plain(After(command[..j]), command[j]) && IsOperator(command[j]))
    {
      var r := command[i];
      assert command[..i + 1][..i] == command[..i];
      if escaped {
        escaped := false;
        continue;
      }
      if r == '\\' && quote != Some('\'') {
        escaped := true;
        continue;
      }
      if quote.Some? {
        if quote == Some(r) {
          quote := None;
        }
        continue;
      }
      if r == '\'' || r == '\"' {
        quote := Some(r);
        continue;
      }
      if r in ";&|<>\n" {
        return true;
      }
    }
    return false;
  }

  // ---------- What quoting hides ----------

  predicate NoneOf(s: string, chars: string) {
    forall i :: 0 <= i < |s| ==> s[i] !in chars
  }

  /** Between double quotes a backslash protects the rune after it. */
  predicate DoubleQuotable(x: string) {
    x == ""
    || (x[0] == '\\' && |x| >= 2 && DoubleQuotable(x[2..]))
    || (x[0] !in "\"\\" && DoubleQuotable(x[1..]))
  }

  /** Text taken literally: between single quotes, between double quotes, or one rune after a
      backslash. */
  ghost predicate Literal(t: string) {
    || (exists x :: NoneOf(x, "'") && t == "'" + x + "'")
    || (exists x :: DoubleQuotable(x) && t == "\"" + x + "\"")
    || (|t| == 2 && t[0] == '\\')
  }

  /** The states while scanning x from s. */
  function ScanFrom(s: Scan, x: string): Scan
    decreases |x|
  {
    if x == "" then s else ScanFrom(Step(s, x[0]), x[1..])
  }

  /** No rune of x is plain when scanned from s. */
  ghost predicate HiddenFrom(s: Scan, x: string)
    decreases |x|
  {
    x == "" || (!Plain(s, x[0]) && HiddenFrom(Step(s, x[0]), x[1..]))
  }

  lemma {:induction false} AfterConcat(c: string, x: string)
    ensures After(c + x) == ScanFrom(After(c), x)
    decreases |x|
  {
    hide Step;
    if x == "" {
      assert c + x == c;
    } else {
      assert (c + [x[0]])[..|c|] == c;
      assert c + x == (c + [x[0]]) + x[1..];
      AfterConcat(c + [x[0]], x[1..]);
    }
  }

  lemma {:induction false} SingleQuotedIsHidden(x: string)
    requires NoneOf(x, "'")
    ensures HiddenFrom(Scan(Some('\''), false), x + "'") && ScanFrom(Scan(Some('\''), false), x + "'") == START
  {
    if x == "" {
      assert x + "'" == "'" && "'"[1..] == "";
    } else {
      assert (x + "'")[1..] == x[1..] + "'" && x[0] != '\'';
      SingleQuotedIsHidden(x[1..]);
    }
  }

  /** Between double quotes, and after a backslash there. */
  const IN_DOUBLE := Scan(Some('\"'), false)
  const ESCAPED_IN_DOUBLE := Scan(Some('\"'), true)

  lemma StepsInDoubleQuotes(r: char)
    ensures !Plain(IN_DOUBLE, r) && !Plain(ESCAPED_IN_DOUBLE, r) && Step(ESCAPED_IN_DOUBLE, r) == IN_DOUBLE
    ensures Step(IN_DOUBLE, r) == if r == '\"' then START else if r == '\\' then ESCAPED_IN_DOUBLE else IN_DOUBLE
  {
  }

  lemma {:induction false} DoubleQuotedIsHidden(x: string)
    requires DoubleQuotable(x)
    ensures HiddenFrom(IN_DOUBLE, x + "\"") && ScanFrom(IN_DOUBLE, x + "\"") == START
  {
    hide Step, Plain;
    var t := x + "\"";
    StepsInDoubleQuotes(t[0]);
    if x == "" {
      assert t == "\"" && t[1..] == "";
    } else if x[0] == '\\' {
      var u := x[1..] + "\"";
      assert t[1..] == u && u[1..] == x[2..] + "\"";
      StepsInDoubleQuotes(u[0]);
      DoubleQuotedIsHidden(x[2..]);
      assert HiddenFrom(ESCAPED_IN_DOUBLE, u) && ScanFrom(ESCAPED_IN_DOUBLE, u) == START;
    } else {
      assert t[1..] == x[1..] + "\"";
      DoubleQuotedIsHidden(x[1..]);
    }
  }

  lemma {:induction false} LiteralIsHidden(t: string)
    requires Literal(t)
    ensures HiddenFrom(START, t) && ScanFrom(START, t) == START
  {
    if x :| NoneOf(x, "'") && t == "'" + x + "'" {
      assert t[1..] == x + "'";
      SingleQuotedIsHidden(x);
    } else if x :| DoubleQuotable(x) && t == "\"" + x + "\"" {
      assert t[1..] == x + "\"";
      DoubleQuotedIsHidden(x);
    } else {
      assert t[1..][0] == t[1] && t[1..][1..] == "";
      assert ScanFrom(Step(Step(START, t[0]), t[1]), "") == START;
    }
  }

  lemma {:induction false} HiddenRunes(s: Scan, x: string, i: nat)
    requires HiddenFrom(s, x) && i < |x|
    ensures !Plain(ScanFrom(s, x[..i]), x[i])
    decreases i
  {
    if i == 0 {
    } else {
      HiddenRunes(Step(s, x[0]), x[1..], i - 1);
      assert x[..i][1..] == x[1..][..i - 1];
    }
  }

  /** Literal text between two complete commands adds no operator and hides none. */
  lemma {:induction false} LiteralTextHidesOperators(c: string, t: string, d: string)
    requires After(c) == START && Literal(t)
    ensures After(c + t) == START
    ensures HasOperator(c + t + d) <==> HasOperator(c) || HasOperator(d)
  {
    LiteralIsHidden(t);
    AfterConcat(c, t);
    hide After, Plain, Literal;
    var all := c + t + d;
    if HasOperator(all) {
      var i :| 0 <= i < |all| && Plain(After(all[..i]), all[i]) && IsOperator(all[i]);
      OperatorOfThree(c, t, d, i);
    }
    if HasOperator(c) {
      var i :| 0 <= i < |c| && Plain(After(c[..i]), c[i]) && IsOperator(c[i]);
      assert all[..i] == c[..i] && all[i] == c[i];
    }
    if HasOperator(d) {
      var i :| 0 <= i < |d| && Plain(After(d[..i]), d[i]) && IsOperator(d[i]);
      AfterRestart(c + t, d[..i]);
      assert all[..|c + t| + i] == c + t + d[..i] && all[|c + t| + i] == d[i];
    }
  }

  lemma AfterRestart(c: string, x: string)
    requires After(c) == START
    ensures After(c + x) == After(x)
  {
    AfterConcat(c, x);
    AfterConcat("", x);
    assert "" + x == x;
  }

  lemma OperatorOfThree(c: string, t: string, d: string, i: nat)
    requires After(c) == START && After(c + t) == START && HiddenFrom(START, t)
    requires i < |c + t + d| && Plain(After((c + t + d)[..i]), (c + t + d)[i]) && IsOperator((c + t + d)[i])
    ensures HasOperator(c) || HasOperator(d)
  {
    hide After, Plain;
    var all := c + t + d;
    if i < |c| {
      assert all[..i] == c[..i] && all[i] == c[i];
    } else {
      assert i >= |c + t| by {
        HiddenInTheMiddle(c, t, d, i);
      }
      var k := i - |c + t|;
      assert all[..i] == c + t + d[..k] && all[i] == d[k];
      AfterRestart(c + t, d[..k]);
    }
  }

  lemma HiddenInTheMiddle(c: string, t: string, d: string, i: nat)
    requires After(c) == START && HiddenFrom(START, t) && i < |c + t + d|
    ensures |c| <= i < |c + t| ==> !Plain(After((c + t + d)[..i]), (c + t + d)[i])
  {
    hide After, Plain;
    if |c| <= i < |c + t| {
      var k := i - |c|;
      assert (c + t + d)[..i] == c + t[..k] && (c + t + d)[i] == t[k];
      AfterConcat(c, t[..k]);
      HiddenRunes(START, t, k);
    }
  }

  /** Outside quotes exactly these runes are operators. */
  lemma {:induction false} OperatorsInTheOpen(c: string, r: char, d: string)
    requires After(c) == START
    ensures r in {';', '&', '|', '<', '>', '\n'} ==> HasOperator(c + [r] + d)
    ensures NoneOf(d, ";&|<>\n") ==> !HasOperator(d)
  {
    var all := c + [r] + d;
    assert all[..|c|] == c && all[|c|] == r;
    assert r in {';', '&', '|', '<', '>', '\n'} ==> Plain(After(all[..|c|]), all[|c|]) && IsOperator(all[|c|]);
  }

  // ---------- Cutting at separators ----------

  /** The raw pieces of c between plain separators, `piece` being the one under way. */
  function Pieces(piece: string, c: string): (r: seq<string>)
    ensures r != []
    decreases |c|
  {
    if c == "" then [piece]
    else if Plain(After(piece), c[0]) && IsSeparator(c[0]) then [piece] + Pieces("", c[1..])
    else Pieces(piece + [c[0]], c[1..])
  }

  /** The trimmed, non-empty pieces. */
  function Trimmed(pieces: seq<string>): seq<string> {
    if pieces == [] then []
    else Trimmed(pieces[..|pieces| - 1])
         + if TrimSpace(pieces[|pieces| - 1]) == "" then [] else [TrimSpace(pieces[|pieces| - 1])]
  }

  function Segments(c: string): seq<string> {
    Trimmed(Pieces("", c))
  }

  lemma PiecesStep(command: string, start: nat, i: nat)
    requires start <= i < |command|
    ensures After(command[start..i + 1]) == Step(After(command[start..i]), command[i])
    ensures Pieces(command[start..i], command[i..])
         == if Plain(After(command[start..i]), command[i]) && IsSeparator(command[i])
            then [command[start..i]] + Pieces("", command[i + 1..])
            else Pieces(command[start..i + 1], command[i + 1..])
  {
    assert command[start..i + 1] == command[start..i] + [command[i]];
    assert command[start..i + 1][..i - start] == command[start..i];
  }

  lemma {:induction false} TrimmedOfConcat(a: seq<string>, b: seq<string>)
    ensures Trimmed(a + b) == Trimmed(a) + Trimmed(b)
  {
    if b == [] {
      assert a + b == a;
    } else {
      assert (a + b)[..|a + b| - 1] == a + b[..|b| - 1];
      TrimmedOfConcat(a, b[..|b| - 1]);
    }
  }

  lemma TrimmedOfOne(p: string)
    ensures Trimmed([p]) == if TrimSpace(p) == "" then [] else [TrimSpace(p)]
  {
    assert [p][..0] == [];
    assert Trimmed([]) == [];
  }

  method SplitShellSegments(command: string) returns (segments: seq<string>)
    ensures segments == Segments(command)
  {
    hide Pieces, Trimmed, TrimSpace, After;
    segments := [];
    var start := 0;
    var quote: Option<char> := None;
    var escaped := false;
    ghost var done: seq<string> := [];
    assert command[0..] == command && command[0..0] == "";
    NothingScanned();
    for i := 0 to |command|
      invariant 0 <= start <= i
      invariant Scan(quote, escaped) == After(command[start..i])
      invariant segments == Trimmed(done)
      invariant Pieces("", command) == done + Pieces(command[start..i], command[i..])
    {
      var r := command[i];
      PiecesStep(command, start, i);
      if escaped {
        escaped := false;
        continue;
      }
      if r == '\\' && quote != Some('\'') {
        escaped := true;
        continue;
      }
      if quote.Some? {
        if quote == Some(r) {
          quote := None;
        }
        continue;
      }
      if r == '\'' || r == '\"' {
        quote := Some(r);
        continue;
      }
      if r !in ";|&\n" {
        continue;
      }
      var segment := TrimSpace(command[start..i]);
      if segment != "" {
        segments := segments + [segment];
      }
      ghost var piece := command[start..i];
      assert done + ([piece] + Pieces("", command[i + 1..])) == (done + [piece]) + Pieces("", command[i + 1..]);
      TrimmedOfConcat(done, [piece]);
      TrimmedOfOne(piece);
      done := done + [piece];
      start := i + 1;
      assert command[start..start] == "";
    }
    ghost var piece := command[start..];
    var segment := TrimSpace(command[start..]);
    if segment != "" {
      segments := segments + [segment];
    }
    assert command[|command|..] == "" && command[start..|command|] == piece;
    LastPiece(piece);
    TrimmedOfConcat(done, [piece]);
    TrimmedOfOne(piece);
  }

  lemma NothingScanned()
    ensures After("") == START && Trimmed([]) == []
  {
  }

  lemma LastPiece(piece: string)
    ensures Pieces(piece, "") == [piece]
  {
  }

  // ---------- The two loops agree ----------

  lemma {:induction false} PieceWithoutSeparator(piece: string, c: string)
    requires !HasSeparator(piece + c)
    ensures Pieces(piece, c) == [piece + c]
    decreases |c|
  {
    if c == "" {
      assert piece + c == piece;
    } else {
      var whole := piece + c;
      assert whole[..|piece|] == piece && whole[|piece|] == c[0];
      assert (piece + [c[0]]) + c[1..] == whole;
      PieceWithoutSeparator(piece + [c[0]], c[1..]);
    }
  }

  /** A command without operators is at most one segment, and that is the trimmed command. */
  lemma NoOperatorMeansOneSegment(c: string)
    requires !HasOperator(c)
    ensures Segments(c) == if TrimSpace(c) == "" then [] else [TrimSpace(c)]
  {
    assert !HasSeparator(c);
    assert "" + c == c;
    PieceWithoutSeparator("", c);
    TrimmedOfOne(c);
  }

  lemma {:induction false} PiecesHaveNoSeparator(piece: string, c: string)
    requires !HasSeparator(piece)
    ensures forall p :: p in Pieces(piece, c) ==> !HasSeparator(p)
    decreases |c|
  {
    if c == "" {
    } else {
      if Plain(After(piece), c[0]) && IsSeparator(c[0]) {
        PiecesHaveNoSeparator("", c[1..]);
      } else {
        var next := piece + [c[0]];
        forall i | 0 <= i < |next|
          ensures !(Plain(After(next[..i]), next[i]) && IsSeparator(next[i]))
        {
          if i < |piece| {
            assert next[..i] == piece[..i];
          } else {
            assert next[..i] == piece;
          }
        }
        PiecesHaveNoSeparator(next, c[1..]);
      }
    }
  }

  lemma {:induction false} LeadingSpaceIsNeutral(w: char, x: string)
    requires IsSpace(w)
    ensures After([w] + x) == After(x)
  {
    var t := [w] + x;
    if x == "" {
      assert t[..|t| - 1] == "";
    } else {
      assert t[..|t| - 1] == [w] + x[..|x| - 1];
      LeadingSpaceIsNeutral(w, x[..|x| - 1]);
    }
  }

  lemma {:induction false} TrimLeftKeepsNoSeparator(p: string)
    requires !HasSeparator(p)
    ensures !HasSeparator(TrimLeft(p))
  {
    if p == "" || !IsSpace(p[0]) {
    } else {
      var x := p[1..];
      forall i | 0 <= i < |x|
        ensures !(Plain(After(x[..i]), x[i]) && IsSeparator(x[i]))
      {
        LeadingSpaceIsNeutral(p[0], x[..i]);
        assert p[..i + 1] == [p[0]] + x[..i] && p[i + 1] == x[i];
      }
      TrimLeftKeepsNoSeparator(x);
    }
  }

  lemma TrimKeepsNoSeparator(p: string)
    requires !HasSeparator(p)
    ensures !HasSeparator(TrimSpace(p))
  {
    TrimLeftKeepsNoSeparator(p);
    var t := TrimLeft(p);
    TrimRightEdges(t);
    var r := TrimRight(t);
    forall i | 0 <= i < |r|
      ensures !(Plain(After(r[..i]), r[i]) && IsSeparator(r[i]))
    {
      assert r[..i] == t[..i];
    }
  }

  lemma {:induction false} TrimmedMembers(pieces: seq<string>, segment: string)
    requires segment in Trimmed(pieces)
    ensures segment != "" && exists p :: p in pieces && segment == TrimSpace(p)
  {
    var init := pieces[..|pieces| - 1];
    if segment in Trimmed(init) {
      TrimmedMembers(init, segment);
    }
  }

  /** A segment is a simple command: cutting it again gives the segment itself. */
  lemma SegmentsAreSimple(c: string, segment: string)
    requires segment in Segments(c)
    ensures Segments(segment) == [segment]
  {
    TrimmedMembers(Pieces("", c), segment);
    var p :| p in Pieces("", c) && segment == TrimSpace(p);
    PiecesHaveNoSeparator("", c);
    TrimKeepsNoSeparator(p);
    TrimIsIdempotent(p);
    assert "" + segment == segment;
    PieceWithoutSeparator("", segment);
    TrimmedOfOne(segment);
  }

  // ---------- Chained commands ----------

  lemma {:induction false} PiecesOfChain(piece: string, c1: string, sep: char, c2: string)
    requires After(piece + c1) == START && IsSeparator(sep)
    ensures Pieces(piece, c1 + [sep] + c2) == Pieces(piece, c1) + Pieces("", c2)
    decreases |c1|
  {
    hide After, Plain, IsSeparator;
    var all := c1 + [sep] + c2;
    if c1 == "" {
      assert piece + c1 == piece && all[0] == sep && all[1..] == c2;
      SeparatorsArePlain(sep);
    } else {
      assert all[0] == c1[0] && all[1..] == c1[1..] + [sep] + c2;
      assert (piece + [c1[0]]) + c1[1..] == piece + c1;
      if Plain(After(piece), c1[0]) && IsSeparator(c1[0]) {
        SeparatorRestarts(piece, c1[0], c1[1..]);
        assert [c1[0]] + c1[1..] == c1;
        PiecesOfChain("", c1[1..], sep, c2);
      } else {
        PiecesOfChain(piece + [c1[0]], c1[1..], sep, c2);
      }
    }
  }

  lemma SeparatorsArePlain(sep: char)
    ensures IsSeparator(sep) ==> Plain(START, sep)
  {
  }

  /** After a plain separator the scan is back in its start state. */
  lemma {:induction false} SeparatorRestarts(piece: string, sep: char, rest: string)
    requires Plain(After(piece), sep) && IsSeparator(sep)
    ensures After(piece + ([sep] + rest)) == After("" + rest)
  {
    var before := piece + [sep];
    assert before[..|before| - 1] == piece;
    assert After(before) == START;
    hide After, Plain;
    AfterRestart(before, rest);
    assert piece + ([sep] + rest) == before + rest && "" + rest == rest;
  }

  /** Without one of these runes a command is one segment, redirections and all. */
  lemma {:induction false} NoSeparatorMeansOneSegment(c: string)
    requires NoneOf(c, ";|&\n")
    ensures Segments(c) == if TrimSpace(c) == "" then [] else [TrimSpace(c)]
  {
    assert "" + c == c;
    PieceWithoutSeparator("", c);
    TrimmedOfOne(c);
  }

  /** A separator outside quotes splits the command, whatever follows it. */
  lemma SegmentsOfChain(c1: string, sep: char, c2: string)
    requires After(c1) == START && sep in {';', '|', '&', '\n'}
    ensures Segments(c1 + [sep] + c2) == Segments(c1) + Segments(c2)
  {
    assert "" + c1 == c1;
    PiecesOfChain("", c1, sep, c2);
    TrimmedOfConcat(Pieces("", c1), Pieces("", c2));
  }

  // ---------- Executables ----------

  /** strings.Fields: the maximal runs of non-space runes. */
  function Fields(s: string): seq<string> {
    FieldsFrom("", s)
  }

  function FieldsFrom(field: string, s: string): seq<string>
    decreases |s|
  {
    var done := if field == "" then [] else [field];
    if s == "" then done
    else if IsSpace(s[0]) then done + FieldsFrom("", s[1..])
    else FieldsFrom(field + [s[0]], s[1..])
  }

  function TrimQuotesLeft(s: string): string {
    if s != "" && s[0] in "'\"" then TrimQuotesLeft(s[1..]) else s
  }

  function TrimQuotesRight(s: string): string {
    if s != "" && s[|s| - 1] in "'\"" then TrimQuotesRight(s[..|s| - 1]) else s
  }

  function TrimSlashesRight(s: string): string {
    if s != "" && s[|s| - 1] == '/' then TrimSlashesRight(s[..|s| - 1]) else s
  }

  function AfterLastSlash(s: string): string {
    if s == "" then ""
    else if s[|s| - 1] == '/' then ""
    else AfterLastSlash(s[..|s| - 1]) + [s[|s| - 1]]
  }

  /** filepath.Base. */
  function Base(path: string): string {
    if path == "" then "."
    else
      var stem := TrimSlashesRight(path);
      if stem == "" then "/" else AfterLastSlash(stem)
  }

  /** An assignment, a wrapper or an option, which commandNames steps over. */
  predicate IsPrefixWord(field: string) {
    || ('=' in field && !("=" <= field))
    || field == "env" || field == "command" || field == "sudo" || field == "--" || "-" <= field
  }

  function Unquoted(field: string): string {
    TrimQuotesRight(TrimQuotesLeft(field))
  }

  /** The executable that the fields of one segment start: at most one. */
  function Executable(fields: seq<string>): seq<string> {
    if fields == [] then []
    else if IsPrefixWord(Unquoted(fields[0])) then Executable(fields[1..])
    else
      var name := Base(Unquoted(fields[0]));
      if name != "" && name != "." && name != "/" then [name] else []
  }

  function NamesOf(segments: seq<string>): seq<string> {
    if segments == [] then []
    else NamesOf(segments[..|segments| - 1]) + Executable(Fields(segments[|segments| - 1]))
  }

  method CommandNames(command: string) returns (names: seq<string>)
    ensures names == NamesOf(Segments(command))
  {
    names := [];
    var segments := SplitShellSegments(command);
    for i := 0 to |segments|
      invariant names == NamesOf(segments[..i])
    {
      var fields := Fields(segments[i]);
      ghost var before := names;
      assert segments[..i + 1][..i] == segments[..i];
      while |fields| > 0
        invariant names == before
        invariant Executable(Fields(segments[i])) == Executable(fields)
        decreases |fields|
      {
        var field := Unquoted(fields[0]);
        if '=' in field && !("=" <= field) {
          fields := fields[1..];
          continue;
        }
        if field == "env" || field == "command" || field == "sudo" || field == "--" || "-" <= field {
          fields := fields[1..];
          continue;
        }
        var name := Base(field);
        if name != "" && name != "." && name != "/" {
          names := names + [name];
        }
        break;
      }
      assert |fields| == 0 ==> Executable(fields) == [];
    }
    assert segments[..|segments|] == segments;
  }

  lemma {:induction false} NamesOfConcat(a: seq<string>, b: seq<string>)
    ensures NamesOf(a + b) == NamesOf(a) + NamesOf(b)
  {
    hide Executable, Fields;
    if b == [] {
      assert a + b == a;
    } else {
      var init, last := b[..|b| - 1], b[|b| - 1];
      assert (a + b)[..|a + b| - 1] == a + init && (a + b)[|a + b| - 1] == last;
      NamesOfConcat(a, init);
      hide NamesOf;
      assert NamesOf(a) + NamesOf(init) + Executable(Fields(last))
          == NamesOf(a) + (NamesOf(init) + Executable(Fields(last)));
    }
  }

  // ---------- Which word of a segment is the executable ----------

  /** The wrappers, options and assignments before the executable, spelled out. */
  predicate SteppedOver(word: string) {
    || word in {"sudo", "env", "command", "--"}
    || (word != "" && word[0] == '-')
    || (word != "" && word[0] != '=' && exists i :: 0 <= i < |word| && word[i] == '=')
  }

  /** The first word of a segment, freed from quotes at its ends, decides: a wrapper, an option
      or an assignment is transparent, and any other word is the executable, by its base name. */
  lemma {:induction false} FirstWordDecides(word: string, rest: seq<string>)
    ensures var w := Unquoted(word);
            && (SteppedOver(w) ==> Executable([word] + rest) == Executable(rest))
            && (!SteppedOver(w) ==> Executable([word] + rest) == if Base(w) in {"", ".", "/"} then [] else [Base(w)])
  {
    var fields := [word] + rest;
    assert fields[0] == word && fields[1..] == rest;
  }

  /** Quotes at the ends do not belong to a word, and a word without them is left alone. */
  lemma {:induction false} UnquotedWord(word: string, q: char)
    requires q in "'\"" && NoneOf(word, "'\"")
    ensures Unquoted([q] + word + [q]) == word && Unquoted(word) == word
  {
    var quoted := [q] + word + [q];
    assert quoted[1..] == word + [q];
    if word == "" {
      assert quoted[1..] == [q] && [q][1..] == "";
      assert TrimQuotesLeft([q]) == "";
    } else {
      assert TrimQuotesLeft(quoted) == TrimQuotesLeft(word + [q]) == word + [q];
      assert (word + [q])[..|word|] == word;
      assert TrimQuotesRight(word + [q]) == TrimQuotesRight(word);
    }
  }

  lemma {:induction false} AfterLastSlashOf(dir: string, name: string)
    requires NoneOf(name, "/")
    ensures AfterLastSlash(dir + "/" + name) == name && AfterLastSlash(name) == name
  {
    if name == "" {
      assert dir + "/" + name == dir + "/";
    } else {
      var init := name[..|name| - 1];
      assert (dir + "/" + name)[..|dir + "/" + name| - 1] == dir + "/" + init;
      AfterLastSlashOf(dir, init);
    }
  }

  /** The base name is what follows the last slash, a slash at the end aside. */
  lemma {:induction false} BaseOfPath(dir: string, name: string)
    requires name != "" && NoneOf(name, "/")
    ensures Base(dir + "/" + name) == name && Base(name) == name && Base(name + "/") == name
  {
    AfterLastSlashOf(dir, name);
    assert (dir + "/" + name)[|dir + "/" + name| - 1] == name[|name| - 1];
    assert (name + "/")[..|name|] == name;
    assert TrimSlashesRight(name + "/") == TrimSlashesRight(name);
    hide AfterLastSlash;
  }

  // ---------- Wrapped commands ----------

  /** A rune without a role in the automaton. */
  predicate Neutral(r: char) {
    r !in "'\"\\" && !IsSeparator(r)
  }

  predicate AllNeutral(word: string) {
    forall i :: 0 <= i < |word| ==> Neutral(word[i])
  }

  lemma {:induction false} NeutralPrefix(pre: string, x: string)
    requires AllNeutral(pre)
    ensures After(pre + x) == After(x) && After(pre) == START
  {
    if x == "" {
      assert pre + x == pre;
      if pre == "" {
      } else {
        NeutralPrefix(pre[..|pre| - 1], "");
        assert pre[..|pre| - 1] + "" == pre[..|pre| - 1];
      }
    } else {
      assert (pre + x)[..|pre + x| - 1] == pre + x[..|x| - 1];
      NeutralPrefix(pre, x[..|x| - 1]);
    }
  }

  lemma {:induction false} PiecesOfPrefixed(pre: string, piece: string, c: string)
    requires AllNeutral(pre)
    ensures Pieces(pre + piece, c) == [pre + Pieces(piece, c)[0]] + Pieces(piece, c)[1..]
    decreases |c|
  {
    hide After, Plain, Neutral, IsSeparator;
    if c == "" {
    } else {
      NeutralPrefix(pre, piece);
      if Plain(After(piece), c[0]) && IsSeparator(c[0]) {
      } else {
        assert pre + piece + [c[0]] == pre + (piece + [c[0]]);
        PiecesOfPrefixed(pre, piece + [c[0]], c[1..]);
      }
    }
  }

  lemma {:induction false} PiecesSkipNeutral(piece: string, pre: string, c: string)
    requires AllNeutral(pre)
    ensures Pieces(piece, pre + c) == Pieces(piece + pre, c)
    decreases |pre|
  {
    if pre == "" {
      assert pre + c == c && piece + pre == piece;
    } else {
      assert (pre + c)[1..] == pre[1..] + c && Neutral(pre[0]);
      assert piece + [pre[0]] + pre[1..] == piece + pre;
      PiecesSkipNeutral(piece + [pre[0]], pre[1..], c);
    }
  }

  /** Executables of the raw pieces: trimming does not matter to them. */
  function NamesOfPieces(pieces: seq<string>): seq<string> {
    if pieces == [] then []
    else Executable(Fields(pieces[0])) + NamesOfPieces(pieces[1..])
  }

  lemma {:induction false} FieldsFromSpaces(s: string)
    requires TrimLeft(s) == ""
    ensures forall field :: FieldsFrom(field, s) == if field == "" then [] else [field]
  {
    if s == "" {
    } else {
      FieldsFromSpaces(s[1..]);
    }
  }

  lemma {:induction false} FieldsOfTrimLeft(s: string)
    ensures FieldsFrom("", TrimLeft(s)) == FieldsFrom("", s)
  {
    if s == "" || !IsSpace(s[0]) {
    } else {
      FieldsOfTrimLeft(s[1..]);
    }
  }

  lemma {:induction false} FieldsFromTrailingSpace(field: string, s: string, w: char)
    requires IsSpace(w)
    ensures FieldsFrom(field, s + [w]) == FieldsFrom(field, s)
    decreases |s|
  {
    if s == "" {
      assert s + [w] == [w] && [w][1..] == "";
      assert FieldsFrom(field, [w]) == (if field == "" then [] else [field]) + FieldsFrom("", "");
    } else {
      assert (s + [w])[1..] == s[1..] + [w];
      FieldsFromTrailingSpace(if IsSpace(s[0]) then "" else field + [s[0]], s[1..], w);
    }
  }

  lemma {:induction false} FieldsOfTrimRight(s: string)
    ensures FieldsFrom("", TrimRight(s)) == FieldsFrom("", s)
  {
    if s == "" || !IsSpace(s[|s| - 1]) {
    } else {
      var init := s[..|s| - 1];
      assert s == init + [s[|s| - 1]];
      FieldsFromTrailingSpace("", init, s[|s| - 1]);
      FieldsOfTrimRight(init);
    }
  }

  lemma {:induction false} NamesOfTrimmed(pieces: seq<string>)
    ensures NamesOf(Trimmed(pieces)) == NamesOfPieces(pieces)
  {
    hide Executable, TrimSpace;
    if pieces == [] {
    } else {
      var p, rest := pieces[0], pieces[1..];
      assert pieces == [p] + rest;
      TrimmedOfConcat([p], rest);
      TrimmedOfOne(p);
      NamesOfConcat(Trimmed([p]), Trimmed(rest));
      NamesOfTrimmed(rest);
      NamesOfOne(p);
    }
  }

  lemma {:induction false} NamesOfOne(p: string)
    ensures NamesOf(if TrimSpace(p) == "" then [] else [TrimSpace(p)]) == Executable(Fields(p))
  {
    FieldsOfTrimLeft(p);
    FieldsOfTrimRight(TrimLeft(p));
    hide Executable, FieldsFrom;
    NoFields();
    assert Fields(TrimSpace(p)) == Fields(p);
    assert [TrimSpace(p)][..0] == [];
    assert NamesOf([]) == [];
  }

  lemma NoFields()
    ensures FieldsFrom("", "") == [] && Executable([]) == []
  {
  }

  lemma {:induction false} FieldsOfWordAnd(field: string, word: string, c: string)
    requires (forall i :: 0 <= i < |word| ==> !IsSpace(word[i])) && field + word != ""
    ensures FieldsFrom(field, word + " " + c) == [field + word] + FieldsFrom("", c)
    decreases |word|
  {
    var s := word + " " + c;
    if word == "" {
      assert s[0] == ' ' && s[1..] == c && field + word == field;
    } else {
      assert s[0] == word[0] && s[1..] == word[1..] + " " + c;
      assert field + [word[0]] + word[1..] == field + word;
      FieldsOfWordAnd(field + [word[0]], word[1..], c);
    }
  }

  /** A word that the policy steps over, in front of a command: no blanks, quotes, escapes or
      operators in it. */
  predicate IsWrapper(word: string) {
    && SteppedOver(word) && NoneOf(word, "'\"\\;&|<>\n")
    && forall i :: 0 <= i < |word| ==> !IsSpace(word[i])
  }

  lemma SudoAndFriendsAreWrappers()
    ensures forall word :: word in {"sudo", "env", "command", "--"} ==> IsWrapper(word)
  {
  }

  lemma WrapperIsNeutral(word: string)
    requires IsWrapper(word)
    ensures AllNeutral(word + " ") && NoneOf(word + " ", ";&|<>\n") && word != ""
  {
  }

  /** Wrapping a command, whatever follows in it, does not change the executables found. */
  lemma {:induction false} WrappersAreTransparent(word: string, c: string)
    requires IsWrapper(word)
    ensures NamesOf(Segments(word + " " + c)) == NamesOf(Segments(c))
  {
    var pre := word + " ";
    WrapperIsNeutral(word);
    assert NoneOf(word, "'\"");
    UnquotedWord(word, '\'');
    hide Executable, Pieces, Trimmed, FieldsFrom, NamesOf, AllNeutral, SteppedOver;
    PiecesSkipNeutral("", pre, c);
    assert "" + pre == pre && pre + "" == pre;
    PiecesOfPrefixed(pre, "", c);
    var ps := Pieces("", c);
    assert Pieces("", pre + c) == [pre + ps[0]] + ps[1..];
    NamesOfTrimmed(ps);
    NamesOfTrimmed(Pieces("", pre + c));
    FieldsOfWordAnd("", word, ps[0]);
    assert "" + word == word;
    FirstWordDecides(word, Fields(ps[0]));
  }

  lemma RuneAfterPrefix(pre: string, c: string, k: nat)
    requires AllNeutral(pre) && k < |c|
    ensures After((pre + c)[..|pre| + k]) == After(c[..k]) && (pre + c)[|pre| + k] == c[k]
  {
    NeutralPrefix(pre, c[..k]);
    assert (pre + c)[..|pre| + k] == pre + c[..k];
  }

  lemma OperatorAfterPrefix(pre: string, c: string)
    requires AllNeutral(pre) && HasOperator(c)
    ensures HasOperator(pre + c)
  {
    hide After, Plain, AllNeutral, IsOperator;
    var k :| 0 <= k < |c| && Plain(After(c[..k]), c[k]) && IsOperator(c[k]);
    RuneAfterPrefix(pre, c, k);
    var i, all := |pre| + k, pre + c;
    assert Plain(After(all[..i]), all[i]) && IsOperator(all[i]);
  }

  lemma NoOperatorInPrefix(pre: string, c: string, i: nat)
    requires NoneOf(pre, ";&|<>\n") && i < |pre|
    ensures !IsOperator((pre + c)[i])
  {
  }

  lemma OperatorNotInPrefix(pre: string, c: string)
    requires AllNeutral(pre) && NoneOf(pre, ";&|<>\n") && HasOperator(pre + c)
    ensures HasOperator(c)
  {
    hide After, Plain, AllNeutral, NoneOf, IsOperator;
    var all := pre + c;
    var i :| 0 <= i < |all| && Plain(After(all[..i]), all[i]) && IsOperator(all[i]);
    if i < |pre| {
      NoOperatorInPrefix(pre, c, i);
    } else {
      var k := i - |pre|;
      RuneAfterPrefix(pre, c, k);
      assert Plain(After(c[..k]), c[k]) && IsOperator(c[k]);
    }
  }

  lemma {:induction false} WrappersHideNoOperator(word: string, c: string)
    requires IsWrapper(word)
    ensures HasOperator(word + " " + c) <==> HasOperator(c)
  {
    hide HasOperator;
    WrapperIsNeutral(word);
    if HasOperator(c) {
      OperatorAfterPrefix(word + " ", c);
    }
    if HasOperator(word + " " + c) {
      OperatorNotInPrefix(word + " ", c);
    }
  }

  /** Joining two commands joins the executables found, unless the first leaves a quote or an
      escape open. */
  lemma NamesOfChain(c1: string, c2: string)
    requires After(c1) == START
    ensures NamesOf(Segments(c1 + ";" + c2)) == NamesOf(Segments(c1)) + NamesOf(Segments(c2))
  {
    SegmentsOfChain(c1, ';', c2);
    NamesOfConcat(Segments(c1), Segments(c2));
  }

  // ---------- The policy ----------

  /** `matches(name, rule)` is the glob comparison; an inert deny rule matches nothing. */
  datatype Policy = Policy(
    allow: seq<string>, deny: seq<string>, denyOperators: bool,
    namesDeniedEnv: string -> bool, matches: (string, string) -> bool)

  datatype Decision =
    | Allowed | DeniedEnv | OperatorsNotAllowed | NoCommandFound
    | DeniedCommand(name: string) | NotAllowlisted(name: string)

  predicate Matched(name: string, rules: seq<string>, matches: (string, string) -> bool) {
    exists i :: 0 <= i < |rules| && matches(name, rules[i])
  }

  method MatchRule(name: string, rules: seq<string>, matches: (string, string) -> bool) returns (found: bool)
    ensures found <==> Matched(name, rules, matches)
  {
    for i := 0 to |rules|
      invariant forall j :: 0 <= j < i ==> !matches(name, rules[j])
    {
      if matches(name, rules[i]) {
        return true;
      }
    }
    return false;
  }

  predicate NamePasses(name: string, policy: Policy) {
    !Matched(name, policy.deny, policy.matches) && (policy.allow == [] || Matched(name, policy.allow, policy.matches))
  }

  predicate NamesPass(names: seq<string>, policy: Policy) {
    forall n :: n in names ==> NamePasses(n, policy)
  }

  /** The executable at i is the first that the rules refuse. */
  predicate FirstRefused(names: seq<string>, i: nat, policy: Policy)
    requires i < |names|
  {
    !NamePasses(names[i], policy) && forall j :: 0 <= j < i ==> NamePasses(names[j], policy)
  }

  ghost predicate Permitted(command: string, policy: Policy) {
    && !policy.namesDeniedEnv(command)
    && !(policy.denyOperators && HasOperator(command))
    && (NamesOf(Segments(command)) == [] ==> policy.allow == [])
    && NamesPass(NamesOf(Segments(command)), policy)
  }

  method CheckCommandPermission(command: string, policy: Policy) returns (d: Decision)
    ensures d.Allowed? <==> Permitted(command, policy)
    ensures d.DeniedEnv? <==> policy.namesDeniedEnv(command)
    ensures d.OperatorsNotAllowed? <==> !d.DeniedEnv? && policy.denyOperators && HasOperator(command)
    ensures d.NoCommandFound? <==>
              !d.DeniedEnv? && !d.OperatorsNotAllowed? && NamesOf(Segments(command)) == [] && policy.allow != []
    ensures d.DeniedCommand? || d.NotAllowlisted? ==>
              exists i :: 0 <= i < |NamesOf(Segments(command))| && FirstRefused(NamesOf(Segments(command)), i, policy)
                          && d.name == NamesOf(Segments(command))[i]
    ensures d.DeniedCommand? ==> Matched(d.name, policy.deny, policy.matches)
    ensures d.NotAllowlisted? ==>
              !Matched(d.name, policy.deny, policy.matches)
              && policy.allow != [] && !Matched(d.name, policy.allow, policy.matches)
  {
    hide NamesOf, Segments, HasOperator, Matched;
    if policy.namesDeniedEnv(command) {
      return DeniedEnv;
    }
    if policy.denyOperators {
      var has := HasShellOperator(command);
      if has {
        return OperatorsNotAllowed;
      }
    }
    var commands := CommandNames(command);
    if |commands| == 0 {
      return if |policy.allow| == 0 then Allowed else NoCommandFound;
    }
    for i := 0 to |commands|
      invariant NamesPass(commands[..i], policy)
    {
      var name := commands[i];
      assert name in commands;
      assert forall j :: 0 <= j < i ==> commands[j] in commands[..i];
      var denied := MatchRule(name, policy.deny, policy.matches);
      if denied {
        assert FirstRefused(commands, i, policy);
        return DeniedCommand(name);
      }
      if |policy.allow| > 0 {
        var allowed := MatchRule(name, policy.allow, policy.matches);
        if !allowed {
          assert FirstRefused(commands, i, policy);
          return NotAllowlisted(name);
        }
      }
      assert commands[..i + 1] == commands[..i] + [name];
    }
    assert commands[..|commands|] == commands;
    return Allowed;
  }

  /** A separator cannot smuggle a command past the policy: a chain is permitted exactly
      when chaining is, and the executables of both halves pass the name rules. */
  lemma ChainIsPermittedIffBothHalvesPass(c1: string, c2: string, policy: Policy)
    requires After(c1) == START
    ensures Permitted(c1 + ";" + c2, policy) <==>
              && !policy.denyOperators && !policy.namesDeniedEnv(c1 + ";" + c2)
              && NamesPass(NamesOf(Segments(c1)), policy) && NamesPass(NamesOf(Segments(c2)), policy)
              && (NamesOf(Segments(c1)) == [] && NamesOf(Segments(c2)) == [] ==> policy.allow == [])
  {
    NamesOfChain(c1, c2);
    var chain := c1 + ";" + c2;
    assert chain[..|c1|] == c1 && chain[|c1|] == ';';
    assert HasOperator(chain);
    hide NamesOf, Segments, NamePasses, HasOperator;
  }

  /** A wrapper cannot smuggle an executable past the policy: apart from the check for denied
      variables, a wrapped command is permitted exactly when the bare one is. */
  lemma {:induction false} WrapperIsPermittedIffBareIs(word: string, c: string, policy: Policy)
    requires IsWrapper(word)
    requires policy.namesDeniedEnv(word + " " + c) == policy.namesDeniedEnv(c)
    ensures Permitted(word + " " + c, policy) <==> Permitted(c, policy)
  {
    WrappersAreTransparent(word, c);
    WrappersHideNoOperator(word, c);
    hide NamesOf, Segments, HasOperator, NamesPass;
  }

  lemma OneNamePerSegment(fields: seq<string>)
    ensures |Executable(fields)| <= 1
  {
  }

  /** With operators denied, an allowed command is a single simple command. */
  lemma DeniedOperatorsLeaveOneCommand(command: string, policy: Policy)
    requires policy.denyOperators && Permitted(command, policy)
    ensures |Segments(command)| <= 1 && |NamesOf(Segments(command))| <= 1
  {
    NoOperatorMeansOneSegment(command);
    if Segments(command) != [] {
      assert Segments(command)[..0] == [];
      OneNamePerSegment(Fields(Segments(command)[0]));
    }
  }
}
