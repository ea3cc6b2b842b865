/** Resolving a declared thinking level onto a model's own mode set (cmd/modeltier.go), and the
    mode sets built from what an LM Studio endpoint declares (cmd/localmodels.go). */
module ThinkingModes {
  import opened Options

  datatype Mode = Mode(id: string, name: string)

  predicate IsValidLevel(level: string) {
    level in {"off", "minimal", "low", "medium", "high", "xhigh"}
  }

  predicate IsActiveLevel(level: string) {
    IsValidLevel(level) && level != "off"
  }

  function LevelRank(level: string): real {
    if level == "minimal" then 1.0
    else if level == "low" then 2.0
    else if level == "medium" then 3.0
    else if level == "high" then 4.0
    else if level == "xhigh" then 5.0
    else -1.0
  }

  function ModeRank(m: Mode): Option<real> {
    if m.name == "None" then Some(0.0)
    else if m.name == "Minimal" then Some(1.0)
    else if m.name == "Low" then Some(2.0)
    else if m.name == "Medium-Low" then Some(2.5)
    else if m.name == "Medium" then Some(3.0)
    else if m.name == "High" then Some(4.0)
    else if m.name == "X-High" then Some(5.0)
    else if m.name == "Max" then Some(6.0)
    else None
  }

  function LabelForLevel(level: string): string {
    if level == "minimal" then "Minimal"
    else if level == "low" then "Low"
    else if level == "medium" then "Medium"
    else if level == "high" then "High"
    else if level == "xhigh" then "X-High"
    else ""
  }

  function Abs(x: real): real {
    if x < 0.0 then -x else x
  }

  predicate Ranked(modes: seq<Mode>, i: int) {
    0 <= i < |modes| && ModeRank(modes[i]).Some?
  }

  function Rank(modes: seq<Mode>, i: int): real
    requires Ranked(modes, i)
  {
    ModeRank(modes[i]).value
  }

  /** Row i is at least as near to `want` as row k, and the stronger one of equally near rows. */
  predicate Beats(modes: seq<Mode>, want: real, i: int, k: int)
    requires Ranked(modes, i) && Ranked(modes, k)
  {
    var di, dk := Abs(Rank(modes, i) - want), Abs(Rank(modes, k) - want);
    di < dk || (di == dk && Rank(modes, i) >= Rank(modes, k))
  }

  ghost predicate Nearest(modes: seq<Mode>, want: real, i: int) {
    Ranked(modes, i) && forall k :: Ranked(modes, k) ==> Beats(modes, want, i, k)
  }

  /** The scan keeps the first of several equally good rows. */
  ghost predicate FirstNearest(modes: seq<Mode>, want: real, i: int) {
    Nearest(modes, want, i) && forall k :: k < i && Ranked(modes, k) ==> !Beats(modes, want, k, i)
  }

  ghost predicate FirstWith(modes: seq<Mode>, i: int, id: Option<string>, name: string) {
    && 0 <= i < |modes|
    && (if id.Some? then modes[i].id == id.value else modes[i].name == name)
    && forall k :: 0 <= k < i ==> if id.Some? then modes[k].id != id.value else modes[k].name != name
  }

  /** The row the documentation promises: the level's own ID, else its label, else the
      nearest ranked row, ties to the stronger one; None when there is no such row. */
  ghost predicate Resolves(modes: seq<Mode>, level: string, row: Option<int>) {
    var byID := exists i :: 0 <= i < |modes| && modes[i].id == level;
    var byLabel := exists i :: 0 <= i < |modes| && modes[i].name == LabelForLevel(level);
    if !IsActiveLevel(level) then row == None
    else if byID then row.Some? && FirstWith(modes, row.value, Some(level), "")
    else if byLabel then row.Some? && FirstWith(modes, row.value, None, LabelForLevel(level))
    else if row == None then forall i :: !Ranked(modes, i)
    else FirstNearest(modes, LevelRank(level), row.value)
  }

  /** The ID of the row, "" for none. */
  function IDOf(modes: seq<Mode>, row: Option<int>): string {
    if row.Some? && 0 <= row.value < |modes| then modes[row.value].id else ""
  }

  method ThinkingModeIDForSet(modes: seq<Mode>, level: string) returns (id: string)
    ensures exists row :: Resolves(modes, level, row) && id == IDOf(modes, row)
    ensures (forall m :: m in modes ==> m.id != "") ==> (id == "" <==> Resolves(modes, level, None))
  {
    hide ModeRank, LevelRank, LabelForLevel;
    if !IsValidLevel(level) || level == "off" {
      assert Resolves(modes, level, None);
      return "";
    }
    for i := 0 to |modes|
      invariant forall k :: 0 <= k < i ==> modes[k].id != level
    {
      if modes[i].id == level {
        assert Resolves(modes, level, Some(i)) && modes[i] in modes;
        return modes[i].id;
      }
    }
    var levelLabel := LabelForLevel(level);
    for i := 0 to |modes|
      invariant forall k :: 0 <= k < i ==> modes[k].name != levelLabel
    {
      if modes[i].name == levelLabel {
        assert Resolves(modes, level, Some(i)) && modes[i] in modes;
        return modes[i].id;
      }
    }
    var want := LevelRank(level);
    var bestDist, bestRank := 0.0, 0.0;
    var found := false;
    id := "";
    ghost var row: Option<int> := None;
    for i := 0 to |modes|
      invariant !found ==> id == "" && row == None && forall k :: 0 <= k < i ==> !Ranked(modes, k)
      invariant found ==>
                  && row.Some? && 0 <= row.value < i && Ranked(modes, row.value) && id == modes[row.value].id
                  && bestRank == Rank(modes, row.value) && bestDist == Abs(bestRank - want)
                  && (forall k :: 0 <= k < i && Ranked(modes, k) ==> Beats(modes, want, row.value, k))
                  && (forall k :: k < row.value && Ranked(modes, k) ==> !Beats(modes, want, k, row.value))
    {
      var rank := ModeRank(modes[i]);
      if rank == None {
        continue;
      }
      var dist := Abs(rank.value - want);
      if !found || dist < bestDist || (dist == bestDist && rank.value > bestRank) {
        assert Ranked(modes, i);
        id, bestDist, bestRank, found := modes[i].id, dist, rank.value, true;
        row := Some(i);
      }
    }
    assert Resolves(modes, level, row) && (row.Some? ==> modes[row.value] in modes);
  }

  /** At most one row is the right one. */
  lemma {:induction false} ResolutionIsUnique(modes: seq<Mode>, level: string, a: Option<int>, b: Option<int>)
    requires Resolves(modes, level, a) && Resolves(modes, level, b)
    ensures a == b
  {
    hide ModeRank, LevelRank, LabelForLevel;
  }

  // ---------- Degrading keeps the order of levels ----------

  /** A row that uses the level's name as its ID carries the level's own label. */
  predicate OwnLabel(m: Mode, level: string) {
    m.id == level ==> m.name == LabelForLevel(level)
  }

  lemma LabelledRowHasLevelRank(level: string, m: Mode)
    requires IsActiveLevel(level) && m.name == LabelForLevel(level)
    ensures ModeRank(m) == Some(LevelRank(level))
  {
  }

  /** With its own label an ID or label match is a nearest row too. */
  lemma ResolvedRowIsNearest(modes: seq<Mode>, level: string, row: int)
    requires Resolves(modes, level, Some(row)) && OwnLabel(modes[row], level)
    ensures Nearest(modes, LevelRank(level), row)
  {
    if modes[row].name == LabelForLevel(level) {
      LabelledRowHasLevelRank(level, modes[row]);
    }
  }

  /** A higher level never resolves to a weaker mode, if the two rows found by their ID carry
      their own labels. */
  lemma HigherLevelIsNeverWeaker(modes: seq<Mode>, low: string, high: string, i: int, j: int)
    requires LevelRank(low) <= LevelRank(high)
    requires Resolves(modes, low, Some(i)) && Resolves(modes, high, Some(j))
    requires OwnLabel(modes[i], low) && OwnLabel(modes[j], high)
    ensures Ranked(modes, i) && Ranked(modes, j) && Rank(modes, i) <= Rank(modes, j)
  {
    ResolvedRowIsNearest(modes, low, i);
    ResolvedRowIsNearest(modes, high, j);
    assert Beats(modes, LevelRank(low), i, j);
    assert Beats(modes, LevelRank(high), j, i);
  }

  /** Once some level resolves to a row with its own label, no active level goes without. */
  lemma AllLevelsResolveOrNone(modes: seq<Mode>, a: string, b: string, row: int)
    requires IsActiveLevel(b) && Resolves(modes, a, Some(row)) && OwnLabel(modes[row], a)
    ensures !Resolves(modes, b, None)
  {
    ResolvedRowIsNearest(modes, a, row);
    assert Ranked(modes, row);
  }

  const LABELS := ["None", "Minimal", "Low", "Medium", "High", "X-High", "Max"]
  const LEVELS := ["off", "minimal", "low", "medium", "high", "xhigh"]

  /** The common scale: the labels are whole steps apart from "None" on, "Medium-Low" lies half
      way between its neighbours, the levels stand on the labels of the same position, and
      nothing else has a rank. */
  lemma {:induction false} LabelsAreEvenlySpaced(m: Mode, level: string)
    ensures forall k: nat :: k < |LABELS| && m.name == LABELS[k] ==> ModeRank(m) == Some(k as real)
    ensures m.name == "Medium-Low" ==> ModeRank(m) == Some(2.5)
    ensures m.name !in LABELS && m.name != "Medium-Low" ==> ModeRank(m) == None
    ensures IsActiveLevel(level) <==> level in LEVELS[1..]
    ensures forall k: nat :: 1 <= k < |LEVELS| && level == LEVELS[k] ==>
              LevelRank(level) == k as real && LabelForLevel(level) == LABELS[k]
  {
    assert LEVELS[1..] == ["minimal", "low", "medium", "high", "xhigh"];
  }

  // ---------- When an active level turns thinking off ----------

  predicate NamedNone(modes: seq<Mode>, row: int) {
    0 <= row < |modes| && modes[row].name == "None"
  }

  ghost predicate ResolvesToNone(modes: seq<Mode>, level: string) {
    exists row :: Resolves(modes, level, Some(row)) && NamedNone(modes, row)
  }

  /** No row has the level's ID or label, and every ranked row but "None" is further away. */
  ghost predicate OnlyNoneIsNear(modes: seq<Mode>, level: string) {
    && (forall k :: 0 <= k < |modes| ==> modes[k].id != level && modes[k].name != LabelForLevel(level))
    && (exists k :: NamedNone(modes, k))
    && (forall k :: Ranked(modes, k) ==> Rank(modes, k) == 0.0 || Rank(modes, k) > 2.0 * LevelRank(level))
  }

  lemma FirstNamedNone(modes: seq<Mode>, n: int) returns (i: int)
    requires NamedNone(modes, n)
    ensures NamedNone(modes, i) && forall k :: 0 <= k < i ==> !NamedNone(modes, k)
  {
    i := 0;
    while !NamedNone(modes, i)
      invariant 0 <= i <= n
      invariant forall k :: 0 <= k < i ==> !NamedNone(modes, k)
      decreases n - i
    {
      i := i + 1;
    }
  }

  lemma OnlyRankZeroIsNone(m: Mode)
    ensures m.name == "None" <==> ModeRank(m) == Some(0.0)
  {
  }

  lemma NoneIsNearest(modes: seq<Mode>, level: string)
    requires IsActiveLevel(level) && OnlyNoneIsNear(modes, level)
    ensures ResolvesToNone(modes, level)
  {
    hide ModeRank, LabelForLevel;
    var n :| NamedNone(modes, n);
    var i := FirstNamedNone(modes, n);
    forall k | Ranked(modes, k)
      ensures Rank(modes, k) == 0.0 <==> NamedNone(modes, k)
    {
      OnlyRankZeroIsNone(modes[k]);
    }
    OnlyRankZeroIsNone(modes[i]);
    assert FirstNearest(modes, LevelRank(level), i);
    assert Resolves(modes, level, Some(i));
  }

  /** An active level resolves to the "None" row exactly when the first row with its ID is
      called "None", or when nothing else is as near. */
  lemma {:induction false} LevelTurnsOffIff(modes: seq<Mode>, level: string)
    requires IsActiveLevel(level)
    ensures ResolvesToNone(modes, level)
       <==> || (exists i :: FirstWith(modes, i, Some(level), "") && modes[i].name == "None")
            || OnlyNoneIsNear(modes, level)
  {
    if ResolvesToNone(modes, level) {
      var row :| Resolves(modes, level, Some(row)) && NamedNone(modes, row);
      if !FirstWith(modes, row, Some(level), "") {
        assert Nearest(modes, LevelRank(level), row) && Rank(modes, row) == 0.0;
        forall k | Ranked(modes, k)
          ensures Rank(modes, k) == 0.0 || Rank(modes, k) > 2.0 * LevelRank(level)
        {
          assert Beats(modes, LevelRank(level), row, k);
        }
      }
    } else if OnlyNoneIsNear(modes, level) {
      NoneIsNearest(modes, level);
    } else if i :| FirstWith(modes, i, Some(level), "") && modes[i].name == "None" {
      assert Resolves(modes, level, Some(i)) && NamedNone(modes, i);
    }
  }

  // ---------- The sets built for LM Studio models ----------

  const EFFORTS := {"none", "minimal", "low", "medium", "high", "xhigh", "max"}

  /** The mode ID of a declared option, None for an unusable one. */
  function LmsReasoningModeID(opt: string): Option<string> {
    if opt == "off" then Some("none")
    else if opt == "on" then Some("medium")
    else if opt in EFFORTS then Some(opt)
    else None
  }

  function ModeLabel(id: string): string {
    if id == "none" then "None"
    else if IsActiveLevel(id) then LabelForLevel(id)
    else id
  }

  function LmsRow(id: string, booleanOnly: bool): Mode {
    Mode(id, if booleanOnly && id == "medium" then "On" else ModeLabel(id))
  }

  /** How many options do not spell "none"; unusable ones count. */
  function NonNone(options: seq<string>): nat {
    if options == [] then 0
    else NonNone(options[..|options| - 1])
         + if LmsReasoningModeID(options[|options| - 1]) != Some("none") then 1 else 0
  }

  predicate BooleanOnly(options: seq<string>) {
    |options| == 2 && NonNone(options) == 1
  }

  predicate HasID(modes: seq<Mode>, id: string) {
    exists m :: m in modes && m.id == id
  }

  /** One row for each usable option, in order, repeated IDs skipped. */
  function LmsRows(options: seq<string>, booleanOnly: bool): seq<Mode> {
    if options == [] then []
    else
      var rows := LmsRows(options[..|options| - 1], booleanOnly);
      match LmsReasoningModeID(options[|options| - 1])
      case None => rows
      case Some(id) => if HasID(rows, id) then rows else rows + [LmsRow(id, booleanOnly)]
  }

  /** A model without a capability declares no options. */
  method LmsReasoningToModes(options: seq<string>) returns (modes: seq<Mode>)
    ensures modes == LmsRows(options, BooleanOnly(options))
  {
    hide LmsReasoningModeID, LmsRow;
    if |options| == 0 {
      return [];
    }
    var nonNone := 0;
    for i := 0 to |options|
      invariant nonNone == NonNone(options[..i])
    {
      assert options[..i + 1][..i] == options[..i];
      if LmsReasoningModeID(options[i]) != Some("none") {
        nonNone := nonNone + 1;
      }
    }
    assert options[..|options|] == options;
    var booleanOnly := |options| == 2 && nonNone == 1;
    var seen: set<string> := {};
    modes := [];
    for i := 0 to |options|
      invariant modes == LmsRows(options[..i], booleanOnly)
      invariant forall id :: id in seen <==> HasID(modes, id)
    {
      assert options[..i + 1][..i] == options[..i];
      var id := LmsReasoningModeID(options[i]);
      if id == None || id.value in seen {
        continue;
      }
      ghost var before := modes;
      seen := seen + {id.value};
      modes := modes + [LmsRow(id.value, booleanOnly)];
      LmsRowHasID(before, id.value, booleanOnly);
    }
  }

  lemma LmsRowHasID(modes: seq<Mode>, id: string, booleanOnly: bool)
    ensures forall other :: HasID(modes + [LmsRow(id, booleanOnly)], other) <==> other == id || HasID(modes, other)
  {
    var row := LmsRow(id, booleanOnly);
    assert row in modes + [row] && row.id == id;
    forall other
      ensures HasID(modes + [row], other) <==> other == id || HasID(modes, other)
    {
      if HasID(modes, other) {
        var m :| m in modes && m.id == other;
        assert m in modes + [row];
      }
    }
  }

  /** The set offers exactly the IDs of the declared options, each with its one label. */
  lemma {:induction false} LmsRowsAreTheOptions(options: seq<string>, booleanOnly: bool)
    ensures forall m :: m in LmsRows(options, booleanOnly) ==> m == LmsRow(m.id, booleanOnly)
    ensures forall id :: HasID(LmsRows(options, booleanOnly), id)
                    <==> exists opt :: opt in options && LmsReasoningModeID(opt) == Some(id)
  {
    hide LmsReasoningModeID;
    if options == [] {
    } else {
      var init, last := options[..|options| - 1], options[|options| - 1];
      assert options == init + [last];
      LmsRowsAreTheOptions(init, booleanOnly);
      var id := LmsReasoningModeID(last);
      if id.Some? {
        LmsRowHasID(LmsRows(init, booleanOnly), id.value, booleanOnly);
      }
      assert forall opt :: opt in options <==> opt in init || opt == last;
    }
  }

  /** Some level turns thinking off although a lower one turns it on. */
  ghost predicate AskingForMoreTurnsOff(modes: seq<Mode>) {
    exists low, high, i, j :: TurnsOff(modes, low, high, i, j)
  }

  ghost predicate TurnsOff(modes: seq<Mode>, low: string, high: string, i: int, j: int) {
    && IsActiveLevel(low) && IsActiveLevel(high) && LevelRank(low) < LevelRank(high)
    && Resolves(modes, low, Some(i)) && !NamedNone(modes, i)
    && Resolves(modes, high, Some(j)) && NamedNone(modes, j)
  }

  lemma LabelledSetsDoNotTurnOff(modes: seq<Mode>)
    requires forall m, level :: m in modes && IsActiveLevel(level) ==> OwnLabel(m, level)
    ensures !AskingForMoreTurnsOff(modes)
  {
    hide LabelForLevel, LevelRank, ModeRank, Resolves, IsValidLevel;
    if low, high, i, j :| TurnsOff(modes, low, high, i, j) {
      ResolvesInRange(modes, low, i);
      ResolvesInRange(modes, high, j);
      assert modes[i] in modes && modes[j] in modes;
      HigherLevelIsNeverWeaker(modes, low, high, i, j);
      OnlyRankZeroIsNone(modes[i]);
      OnlyRankZeroIsNone(modes[j]);
      RankIsNonNegative(modes[i]);
    }
  }

  lemma ResolvesInRange(modes: seq<Mode>, level: string, i: int)
    requires Resolves(modes, level, Some(i))
    ensures 0 <= i < |modes|
  {
  }

  lemma RankIsNonNegative(m: Mode)
    ensures ModeRank(m).Some? ==> ModeRank(m).value >= 0.0
  {
  }

  lemma PlainRowsAreLabelled(id: string, level: string, booleanOnly: bool)
    requires IsActiveLevel(level) && !(booleanOnly && id == "medium")
    ensures OwnLabel(LmsRow(id, booleanOnly), level)
  {
  }

  /** The two options of a boolean-only set spell "none" and one other ID. */
  lemma BooleanOptions(options: seq<string>)
    requires BooleanOnly(options)
    ensures exists opt :: opt in options && LmsReasoningModeID(opt) == Some("none")
    ensures forall a, b ::
              a in options && b in options && LmsReasoningModeID(a) != Some("none")
              && LmsReasoningModeID(b) != Some("none")
              ==> a == b
  {
    hide LmsReasoningModeID;
    assert options[..1][..0] == [] && options == [options[0], options[1]];
    assert NonNone(options[..1]) == if LmsReasoningModeID(options[0]) != Some("none") then 1 else 0;
    assert options[0] in options && options[1] in options;
  }

  /** Two options, one for "none" and one for "medium", in either order. */
  lemma {:induction false} OnOffOptions(options: seq<string>)
    ensures OffersOn(options)
       <==> && |options| == 2
            && ((options[0] in {"off", "none"} && options[1] in {"on", "medium"})
                || (options[1] in {"off", "none"} && options[0] in {"on", "medium"}))
  {
    if |options| == 2 {
      assert options[..1] == [options[0]] && options[..1][..0] == [] && options == [options[0], options[1]];
      assert NonNone(options[..1]) == if LmsReasoningModeID(options[0]) != Some("none") then 1 else 0;
      assert options[0] in options && options[1] in options;
    }
  }

  /** Declared options and the rows they give: every standard effort keeps its ID and label. */
  lemma {:induction false} LmsRowOfOption(opt: string)
    ensures LmsReasoningModeID(opt) == (if opt == "off" then Some("none") else if opt == "on" then Some("medium")
                                        else if opt in {"none", "minimal", "low", "medium", "high", "xhigh", "max"}
                                        then Some(opt) else None)
    ensures forall k: nat :: 1 <= k < |LEVELS| && opt == LEVELS[k] ==> LmsRow(opt, false) == Mode(opt, LABELS[k])
    ensures LmsRow("none", true) == LmsRow("none", false) == Mode("none", "None")
    ensures LmsRow("medium", true) == Mode("medium", "On") && LmsRow("max", true) == Mode("max", "max")
  {
  }

  predicate OffersOn(options: seq<string>) {
    BooleanOnly(options) && exists opt :: opt in options && LmsReasoningModeID(opt) == Some("medium")
  }

  /** Off and on: the "medium" row is labelled "On", which has no rank, so "medium" finds its
      row by ID while every other level, the higher ones too, degrades to "None". */
  lemma OnOffModelTurnsOff(options: seq<string>, level: string)
    requires OffersOn(options) && IsActiveLevel(level) && level != "medium"
    ensures var modes := LmsRows(options, true);
            && ResolvesToNone(modes, level)
            && exists i :: 0 <= i < |modes| && modes[i] == Mode("medium", "On") && Resolves(modes, "medium", Some(i))
  {
    var modes := LmsRows(options, true);
    OnOffRows(options, level);
    NoneIsNearest(modes, level);
    var i := RowWithID(modes, "medium");
    assert modes[i] in modes;
    assert Resolves(modes, "medium", Some(i));
  }

  lemma OnOffRows(options: seq<string>, level: string)
    requires OffersOn(options) && IsActiveLevel(level) && level != "medium"
    ensures var modes := LmsRows(options, true);
            && HasID(modes, "medium")
            && (forall m :: m in modes ==> m == Mode("none", "None") || m == Mode("medium", "On"))
            && OnlyNoneIsNear(modes, level)
  {
    var modes := LmsRows(options, true);
    LmsRowsAreTheOptions(options, true);
    BooleanOptions(options);
    hide LmsReasoningModeID, NonNone, LmsRows, OnlyNoneIsNear;
    forall m | m in modes
      ensures m == Mode("none", "None") || m == Mode("medium", "On")
    {
      assert HasID(modes, m.id);
      assert m == LmsRow(m.id, true);
    }
    OnOffIsNearNone(modes, level);
  }

  lemma OnOffIsNearNone(modes: seq<Mode>, level: string)
    requires IsActiveLevel(level) && level != "medium" && HasID(modes, "none")
    requires forall m :: m in modes ==> m == Mode("none", "None") || m == Mode("medium", "On")
    ensures OnlyNoneIsNear(modes, level)
  {
    hide HasID;
    var n := RowWithID(modes, "none");
    assert modes[n] in modes && NamedNone(modes, n);
    assert forall k :: 0 <= k < |modes| ==> modes[k] in modes;
    assert ModeRank(Mode("none", "None")) == Some(0.0) && ModeRank(Mode("medium", "On")) == None;
    hide ModeRank, LevelRank;
  }

  lemma RowWithID(modes: seq<Mode>, id: string) returns (i: int)
    requires HasID(modes, id)
    ensures FirstWith(modes, i, Some(id), "")
  {
    var m :| m in modes && m.id == id;
    i := 0;
    while modes[i].id != id
      invariant 0 <= i < |modes|
      invariant m in modes[i..]
      invariant forall k :: 0 <= k < i ==> modes[k].id != id
      decreases |modes| - i
    {
      i := i + 1;
    }
  }

  /** Of all the sets an endpoint can declare, exactly those of the models that only switch
      thinking on and off have a level that turns it off although a lower one turns it on. */
  lemma {:induction false} MoreTurnsOffExactlyForOnOffModels(options: seq<string>)
    ensures AskingForMoreTurnsOff(LmsRows(options, BooleanOnly(options))) <==> OffersOn(options)
  {
    var modes := LmsRows(options, BooleanOnly(options));
    hide LmsRows, NonNone, BooleanOnly, ResolvesToNone;
    if OffersOn(options) {
      OnOffModelTurnsOff(options, "high");
      SomeLevelTurnsOff(modes);
    } else {
      LmsRowsAreTheOptions(options, BooleanOnly(options));
      forall m, level | m in modes && IsActiveLevel(level)
        ensures OwnLabel(m, level)
      {
        assert HasID(modes, m.id);
        PlainRowsAreLabelled(m.id, level, BooleanOnly(options));
      }
      LabelledSetsDoNotTurnOff(modes);
    }
  }

  lemma SomeLevelTurnsOff(modes: seq<Mode>)
    requires ResolvesToNone(modes, "high")
    requires exists i :: 0 <= i < |modes| && modes[i] == Mode("medium", "On") && Resolves(modes, "medium", Some(i))
    ensures AskingForMoreTurnsOff(modes)
  {
    hide Resolves;
    var i :| 0 <= i < |modes| && modes[i] == Mode("medium", "On") && Resolves(modes, "medium", Some(i));
    var j :| Resolves(modes, "high", Some(j)) && NamedNone(modes, j);
    assert TurnsOff(modes, "medium", "high", i, j);
  }
}
