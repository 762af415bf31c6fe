/** Which calls the lines of a Dockerfile make on the image builder. */
module StageLines {
  import opened Options
  import opened Text
  import opened Stages

  // -------------------------------------------------------- the lines of the stages

  /** DockerfileBuilder.readNode over all lines, unless one fails. */
  function Load(lines: seq<Line>): Option<seq<Stage>> {
    if lines == [] then Some([])
    else
      var n := |lines| - 1;
      var before := Load(lines[..n]);
      if before.None? then None else Read(before.value, lines[n])
  }

  function Grown(groups: seq<seq<Line>>, line: Line): (r: seq<seq<Line>>)
    requires groups != []
    ensures |r| == |groups| && r[|r| - 1] == groups[|r| - 1] + [line]
    ensures forall j :: 0 <= j < |r| - 1 ==> r[j] == groups[j]
  {
    groups[..|groups| - 1] + [groups[|groups| - 1] + [line]]
  }

  /** The lines of each stage: every FROM starts a new one. */
  function Groups(lines: seq<Line>): seq<seq<Line>> {
    if lines == [] then []
    else
      var n := |lines| - 1;
      var before := Groups(lines[..n]);
      if lines[n].From? || before == [] then before + [[lines[n]]]
      else Grown(before, lines[n])
  }

  /** The name of a stage: its alias, or its number. */
  function NameOf(group: seq<Line>, i: nat): string {
    if group != [] && group[0].From? && group[0].alias.Some? then group[0].alias.value else ShowNat(i, Decimal)
  }

  function NamesOf(groups: seq<seq<Line>>): seq<string> {
    seq(|groups|, i requires 0 <= i < |groups| => NameOf(groups[i], i))
  }

  // ------------------------------------------------------------------- references

  /** What a name in a line stands for. */
  datatype Ref = NoRef | ToStage(i: nat) | ToImage(name: string)

  /** A number stands for the earlier stage of that index. Any other name stands for the
      first earlier stage of that name, or for an image if there is none. */
  predicate RefersTo(names: seq<string>, name: string, ref: Ref) {
    match ref
    case NoRef => name == ""
    case ToStage(i) =>
      && name != "" && i < |names|
      && var number := ParseInt(name, 0x8000_0000);
         if number.Some? then number.value == i
         else names[i] == name && forall h :: 0 <= h < i ==> names[h] != name
    case ToImage(image) => name != "" && image == name && ParseInt(name, 0x8000_0000).None? && name !in names
  }

  /** A name stands for one thing. */
  lemma OneRef(names: seq<string>, name: string, r: Ref, r': Ref)
    requires RefersTo(names, name, r) && RefersTo(names, name, r')
    ensures r == r'
  {
  }

  /** The number of an earlier stage stands for it, whatever the stages are called. */
  lemma NumbersRefer(names: seq<string>, i: nat)
    requires i < |names| && i < 0x8000_0000
    ensures RefersTo(names, ShowNat(i, Decimal), ToStage(i))
  {
    IntInverts(i, 0x8000_0000);
    NatInverts(i, Decimal);
  }

  /** A name with a character that is no digit and no sign is no number. */
  lemma NamesRefer(names: seq<string>, name: string, k: nat)
    requires k < |name| && !IsDigit(name[k], Decimal) && name[k] != '-' && name[k] != '+'
    ensures name in names ==> exists i :: RefersTo(names, name, ToStage(i))
    ensures name !in names ==> RefersTo(names, name, ToImage(name))
  {
    var signed := name[0] == '-' || name[0] == '+';
    var digits := if signed then name[1..] else name;
    DigitsOnly(digits, if signed then k - 1 else k);
    if name in names { var i := FirstOf(names, name); assert RefersTo(names, name, ToStage(i)); }
  }

  lemma {:induction false} DigitsOnly(s: string, k: nat)
    requires k < |s| && !IsDigit(s[k], Decimal)
    ensures ParseNat(s, Decimal).None?
    decreases |s|
  {
    if k < |s| - 1 { DigitsOnly(s[..|s| - 1], k); }
  }

  lemma {:induction false} FirstOf(names: seq<string>, name: string) returns (i: nat)
    requires name in names
    ensures i < |names| && names[i] == name && forall h :: 0 <= h < i ==> names[h] != name
    decreases |names|
  {
    var n := |names| - 1;
    if name in names[..n] {
      i := FirstOf(names[..n], name);
    } else {
      i := n;
      assert forall h :: 0 <= h < n ==> names[h] in names[..n];
    }
  }

  function StageNames(stages: seq<Stage>): seq<string> {
    seq(|stages|, i requires 0 <= i < |stages| => stages[i].name)
  }

  function RefOf(found: Found, name: string): Ref {
    match found
    case Internal(i) => ToStage(i)
    case External => if name == "" then NoRef else ToImage(name)
    case Unknown => NoRef
  }

  /** findStage finds what the name stands for, or nothing can be found. */
  lemma FoundIsRef(stages: seq<Stage>, name: string)
    ensures var found := FindStage(stages, name);
      if found.Unknown? then forall r :: !RefersTo(StageNames(stages), name, r)
      else RefersTo(StageNames(stages), name, RefOf(found, name))
  {
    FirstNamedIs(stages, name);
    var names := StageNames(stages);
    assert forall i :: 0 <= i < |stages| ==> names[i] == stages[i].name;
  }

  // ------------------------------------------------------------------ what is loaded

  /** The operation of a line, with the names of the stages before its own. */
  ghost predicate OpFor(names: seq<string>, line: Line, op: Op) {
    match line
    case From(image, _) =>
      exists r :: RefersTo(names, image, r) && !r.NoRef? &&
        op == if r.ToStage? then FromStage(r.i) else FromImage(image)
    case Copy(source, args, add) =>
      exists r :: RefersTo(names, source, r) &&
        op == if r.ToStage? then CopyFromStage(r.i, args, add) else CopyFrom(source, args, add)
    case Plain(call) => op == Other(call)
  }

  ghost predicate StageFor(names: seq<string>, group: seq<Line>, s: Stage) {
    |s.ops| == |group| && forall m :: 0 <= m < |group| ==> OpFor(names, group[m], s.ops[m])
  }

  ghost predicate LoadedAt(groups: seq<seq<Line>>, stages: seq<Stage>, j: nat)
    requires j < |groups| == |stages|
  {
    && groups[j] != [] && groups[j][0].From? && stages[j].name == NameOf(groups[j], j)
    && StageFor(StageNames(stages)[..j], groups[j], stages[j])
  }

  ghost predicate LoadedAs(groups: seq<seq<Line>>, stages: seq<Stage>) {
    |stages| == |groups| && forall j :: 0 <= j < |groups| ==> LoadedAt(groups, stages, j)
  }

  lemma LoadedNames(groups: seq<seq<Line>>, stages: seq<Stage>)
    requires LoadedAs(groups, stages)
    ensures |stages| == |groups| && StageNames(stages) == NamesOf(groups)
  {
    hide NameOf, StageFor;
    var a, b := StageNames(stages), NamesOf(groups);
    forall j | 0 <= j < |groups| ensures a[j] == b[j] {
      assert LoadedAt(groups, stages, j);
    }
  }

  lemma LoadedSame(groups: seq<seq<Line>>, stages: seq<Stage>, more: seq<seq<Line>>, after: seq<Stage>, j: nat)
    requires j < |groups| == |stages| && j < |more| == |after| && LoadedAt(groups, stages, j)
    requires more[j] == groups[j] && after[j] == stages[j] && after[..j] == stages[..j]
    ensures LoadedAt(more, after, j)
  {
    hide StageFor, NameOf;
    assert StageNames(after)[..j] == StageNames(after[..j]) == StageNames(stages[..j]) == StageNames(stages)[..j];
  }

  lemma FromOp(stages: seq<Stage>, line: Line)
    requires line.From? && Read(stages, line).Some?
    ensures var n, after := |stages|, Read(stages, line).value;
      && |after| == n + 1 && after[..n] == stages && after[n].name == NameOf([line], n)
      && StageFor(StageNames(stages), [line], after[n])
  {
    FoundIsRef(stages, line.image);
    var r := RefOf(FindStage(stages, line.image), line.image);
    hide FindStage;
    assert RefersTo(StageNames(stages), line.image, r) && !r.NoRef?;
  }

  lemma FromLoads(stages: seq<Stage>, groups: seq<seq<Line>>, line: Line)
    requires LoadedAs(groups, stages) && line.From? && Read(stages, line).Some?
    ensures LoadedAs(groups + [[line]], Read(stages, line).value)
  {
    var n, more, after := |stages|, groups + [[line]], Read(stages, line).value;
    FromOp(stages, line);
    hide Read, StageFor;
    assert StageNames(after)[..n] == StageNames(after[..n]);
    assert LoadedAt(more, after, n);
    hide LoadedAt;
    forall j | 0 <= j < n ensures LoadedAt(more, after, j) {
      assert after[j] == after[..n][j] && after[..j] == after[..n][..j];
      LoadedSame(groups, stages, more, after, j);
    }
  }

  lemma LineOp(stages: seq<Stage>, line: Line)
    requires stages != [] && !line.From? && Read(stages, line).Some?
    ensures var n, after := |stages| - 1, Read(stages, line).value;
      && |after| == |stages| && after[..n] == stages[..n] && after[n].name == stages[n].name
      && |after[n].ops| == |stages[n].ops| + 1 && after[n].ops[..|stages[n].ops|] == stages[n].ops
      && OpFor(StageNames(stages[..n]), line, after[n].ops[|stages[n].ops|])
  {
    var n := |stages| - 1;
    if line.Copy? {
      FoundIsRef(stages[..n], line.source);
      var r := RefOf(FindStage(stages[..n], line.source), line.source);
      hide FindStage;
      assert RefersTo(StageNames(stages[..n]), line.source, r);
    }
  }

  lemma StageGrows(names: seq<string>, group: seq<Line>, s: Stage, line: Line, s': Stage)
    requires StageFor(names, group, s) && |s'.ops| == |s.ops| + 1 && s'.ops[..|s.ops|] == s.ops
    requires OpFor(names, line, s'.ops[|s.ops|])
    ensures StageFor(names, group + [line], s')
  {
    hide OpFor;
    forall m | 0 <= m < |group| + 1
      ensures OpFor(names, (group + [line])[m], s'.ops[m])
    {
      if m < |group| { assert s'.ops[m] == s'.ops[..|s.ops|][m] == s.ops[m]; }
    }
  }

  lemma LineLoads(stages: seq<Stage>, groups: seq<seq<Line>>, line: Line)
    requires LoadedAs(groups, stages) && !line.From? && Read(stages, line).Some?
    ensures groups != [] && LoadedAs(Grown(groups, line), Read(stages, line).value)
  {
    assert stages != [];
    var n, more, after := |stages| - 1, Grown(groups, line), Read(stages, line).value;
    LineOp(stages, line);
    hide Read, OpFor, StageFor, Grown;
    assert LoadedAt(groups, stages, n);
    assert LoadedAt(more, after, n) by {
      assert StageNames(after)[..n] == StageNames(after[..n]) == StageNames(stages[..n]) == StageNames(stages)[..n];
      StageGrows(StageNames(stages)[..n], groups[n], stages[n], line, after[n]);
    }
    hide LoadedAt;
    forall j | 0 <= j < n ensures LoadedAt(more, after, j) {
      assert after[j] == after[..n][j] && after[..j] == after[..n][..j];
      LoadedSame(groups, stages, more, after, j);
    }
  }

  /** The stages are those of the lines, each with one operation per line. */
  lemma {:induction false} LoadsLines(lines: seq<Line>)
    requires Load(lines).Some?
    ensures LoadedAs(Groups(lines), Load(lines).value)
    decreases |lines|
  {
    hide LoadedAs, Read;
    if lines == [] {
      NothingLoaded();
    } else {
      var n := |lines| - 1;
      LoadsLines(lines[..n]);
      var stages, groups := Load(lines[..n]).value, Groups(lines[..n]);
      if lines[n].From? {
        FromLoads(stages, groups, lines[n]);
      } else {
        LineLoads(stages, groups, lines[n]);
      }
    }
  }

  lemma NothingLoaded()
    ensures LoadedAs([], [])
  {
  }

  ghost predicate Stands(names: seq<string>, name: string) {
    exists r :: RefersTo(names, name, r)
  }

  /** A line that can be read after others: its reference stands for something, and a stage
      was started, in which FROM names an image. */
  ghost predicate Readable(groups: seq<seq<Line>>, line: Line) {
    match line
    case From(image, _) => exists r :: RefersTo(NamesOf(groups), image, r) && !r.NoRef?
    case Copy(source, _, _) => groups != [] && Stands(NamesOf(groups)[..|groups| - 1], source)
    case Plain(_) => groups != []
  }

  /** Loading fails exactly at a line that cannot be read. */
  lemma LoadsIff(lines: seq<Line>, line: Line)
    requires Load(lines).Some?
    ensures Load(lines + [line]).Some? <==> Readable(Groups(lines), line)
  {
    assert (lines + [line])[..|lines|] == lines;
    LoadsLines(lines);
    var stages, groups := Load(lines).value, Groups(lines);
    LoadedNames(groups, stages);
    hide LoadedAs, Load, Groups;
    match line
    case From(image, _) =>
      FoundIsRef(stages, image);
      var r := RefOf(FindStage(stages, image), image);
      if FindStage(stages, image).Unknown? {
        assert !Readable(groups, line);
      } else {
        assert RefersTo(NamesOf(groups), image, r);
        assert r.NoRef? <==> image == "";
      }
    case Copy(source, _, _) =>
      if stages != [] {
        var n := |stages| - 1;
        FoundIsRef(stages[..n], source);
        assert StageNames(stages[..n]) == NamesOf(groups)[..n];
        var r := RefOf(FindStage(stages[..n], source), source);
        assert FindStage(stages[..n], source).Unknown? || RefersTo(NamesOf(groups)[..n], source, r);
      }
    case Plain(_) =>
  }

  function Joined(groups: seq<seq<Line>>): seq<Line> {
    if groups == [] then [] else Joined(groups[..|groups| - 1]) + groups[|groups| - 1]
  }

  /** Every group but the first one starts with FROM, and has no other. */
  predicate CutAtFrom(groups: seq<seq<Line>>) {
    && (forall j :: 0 <= j < |groups| ==> groups[j] != [] && (j > 0 ==> groups[j][0].From?))
    && (forall j, m :: 0 <= j < |groups| && 0 < m < |groups[j]| ==> !groups[j][m].From?)
  }

  lemma CutGrows(groups: seq<seq<Line>>, line: Line)
    requires CutAtFrom(groups) && groups != [] && !line.From?
    ensures CutAtFrom(Grown(groups, line))
  {
    hide Grown;
    var k, more: seq<seq<Line>> := |groups| - 1, Grown(groups, line);
    forall j, m | 0 <= j < |more| && 0 < m < |more[j]|
      ensures !more[j][m].From?
    {
      if j < k || m < |groups[k]| { assert more[j][m] == groups[j][m]; }
    }
  }

  lemma JoinGrows(groups: seq<seq<Line>>, last: seq<Line>)
    ensures Joined(groups + [last]) == Joined(groups) + last
  {
    assert (groups + [last])[..|groups|] == groups;
  }

  lemma JoinLast(groups: seq<seq<Line>>, line: Line)
    requires groups != []
    ensures Joined(Grown(groups, line)) == Joined(groups) + [line]
  {
    var k := |groups| - 1;
    JoinGrows(groups[..k], groups[k] + [line]);
  }

  lemma CutStarts(groups: seq<seq<Line>>, line: Line)
    requires CutAtFrom(groups) && (line.From? || groups == [])
    ensures CutAtFrom(groups + [[line]])
  {
  }

  lemma NothingCut()
    ensures CutAtFrom([]) && Joined([]) == []
  {
  }

  /** The groups are the lines, cut before every FROM. */
  lemma {:induction false} GroupsJoin(lines: seq<Line>)
    ensures Joined(Groups(lines)) == lines && CutAtFrom(Groups(lines))
    decreases |lines|
  {
    hide CutAtFrom, Joined, Grown;
    if lines == [] {
      NothingCut();
    } else {
      var n := |lines| - 1;
      GroupsJoin(lines[..n]);
      var before, line := Groups(lines[..n]), lines[n];
      assert lines == lines[..n] + [line];
      if line.From? || before == [] {
        JoinGrows(before, [line]);
        CutStarts(before, line);
      } else {
        CutGrows(before, line);
        JoinLast(before, line);
      }
    }
  }

  // --------------------------------------------------------------- the calls it makes

  /** The call of a line, with the names and the images of the stages before its own. ADD
      does not take files from an image. */
  ghost predicate CallFor(names: seq<string>, images: seq<string>, line: Line, call: Call)
    requires |names| == |images|
  {
    match line
    case From(image, _) =>
      exists r :: RefersTo(names, image, r) && !r.NoRef? && call == CallFrom(if r.ToStage? then images[r.i] else image)
    case Copy(source, args, add) =>
      exists r :: RefersTo(names, source, r) &&
        var image := if r.ToStage? then images[r.i] else source;
        if image == "" then call == CallFiles(args, add) else !add && call == CallCopy(image, args)
    case Plain(c) => call == CallOther(c)
  }

  lemma ResolvedCall(names: seq<string>, images: seq<string>, built: seq<string>, line: Line, op: Op)
    requires OpFor(names, line, op) && Resolve(op, built).Some? && |names| == |images| <= |built| &&
      images == built[..|images|]
    ensures CallFor(names, images, line, Resolve(op, built).value)
  {
    var call := Resolve(op, built).value;
    match line
    case From(image, _) =>
      var r :| RefersTo(names, image, r) && !r.NoRef? && op == if r.ToStage? then FromStage(r.i) else FromImage(image);
      assert call == CallFrom(if r.ToStage? then images[r.i] else image);
    case Copy(source, args, add) =>
      var r :| RefersTo(names, source, r) &&
        op == if r.ToStage? then CopyFromStage(r.i, args, add) else CopyFrom(source, args, add);
      assert call == (CopyCall(if r.ToStage? then images[r.i] else source, args, add)).value;
    case Plain(_) =>
  }

  /** A stage that ran made one call per operation. */
  lemma {:induction false} RunCalls<S>(b: Builder<S>, ops: seq<Op>, built: seq<string>, st: Option<S>, m: nat)
    requires RunOps(b, ops, built, st).Ran? && m < |ops|
    ensures var r := RunOps(b, ops, built, st);
      |r.calls| == |ops| && Resolve(ops[m], built) == Some(r.calls[m])
    decreases |ops|
  {
    hide Resolve, Do;
    var n := |ops| - 1;
    var k := if m < n then m else n - 1;
    if n > 0 {
      RunCalls(b, ops[..n], built, st, k);
      assert ops[..n][k] == ops[k];
    } else {
      assert RunOps(b, ops[..0], built, st) == Ran(st, []);
    }
  }

  predicate IsSelected(selected: Option<set<nat>>, j: nat) {
    selected.Some? ==> j in selected.value
  }

  /** The images and the calls of a stage are not changed by later stages. */
  lemma {:induction false} EarlierStay<S>(b: Builder<S>, stages: seq<Stage>, selected: Option<set<nat>>, st: Option<S>,
                                          n: nat, m: nat)
    requires n <= m <= |stages| && ApplyAll(b, stages, selected, st, m).Built?
    ensures var r, q := ApplyAll(b, stages, selected, st, n), ApplyAll(b, stages, selected, st, m);
      && r.Built? && |r.images| == |r.calls| == |q.images| == |q.calls| == |stages|
      && r.images[..n] == q.images[..n] && r.calls[..n] == q.calls[..n]
    decreases m
  {
    hide RunOps;
    ApplyShape(b, stages, selected, st, m);
    ApplyShape(b, stages, selected, st, n);
    if n < m {
      EarlierStay(b, stages, selected, st, n, m - 1);
      var q, p := ApplyAll(b, stages, selected, st, m), ApplyAll(b, stages, selected, st, m - 1);
      assert q.images[..n] == p.images[..n] && q.calls[..n] == p.calls[..n];
    }
  }

  /** What a build of a loaded Dockerfile calls: every line of a selected stage makes the
      call that it stands for, on the images of the stages that it names. */
  lemma LinesCall<S>(b: Builder<S>, lines: seq<Line>, selected: Option<set<nat>>, st: Option<S>, j: nat, m: nat)
    requires Load(lines).Some? && IsSelected(selected, j) && j < |Groups(lines)| && m < |Groups(lines)[j]|
    requires ApplyAll(b, Load(lines).value, selected, st, |Load(lines).value|).Built?
    ensures var groups := Groups(lines);
      var r := ApplyAll(b, Load(lines).value, selected, st, |Load(lines).value|);
      && |r.images| == |r.calls| == |groups| && |r.calls[j]| == |groups[j]|
      && CallFor(NamesOf(groups)[..j], r.images[..j], groups[j][m], r.calls[j][m])
  {
    hide RunOps, Resolve, OpFor, CallFor, Load, Groups;
    LoadsLines(lines);
    var stages, groups := Load(lines).value, Groups(lines);
    LoadedNames(groups, stages);
    assert LoadedAt(groups, stages, j);
    var n := |stages|;
    EarlierStay(b, stages, selected, st, j, n);
    EarlierStay(b, stages, selected, st, j + 1, n);
    var r, p, q := ApplyAll(b, stages, selected, st, n), ApplyAll(b, stages, selected, st, j),
                   ApplyAll(b, stages, selected, st, j + 1);
    assert r.calls[j] == r.calls[..j + 1][j] == q.calls[..j + 1][j] == q.calls[j];
    hide LoadedAs, LoadedAt, StageNames, NamesOf;
    RunCalls(b, stages[j].ops, p.images, p.st, m);
    ResolvedCall(NamesOf(groups)[..j], r.images[..j], p.images, groups[j][m], stages[j].ops[m]);
  }

  // -------------------------------------------------------- the calls make the images

  function DoCalls<S>(b: Builder<S>, st: Option<S>, calls: seq<Call>): Option<S> {
    if calls == [] then st
    else
      var n := |calls| - 1;
      Stages.Do(b, DoCalls(b, st, calls[..n]), calls[n])
  }

  function Flat(calls: seq<seq<Call>>, n: nat): seq<Call>
    requires n <= |calls|
  {
    if n == 0 then [] else Flat(calls, n - 1) + calls[n - 1]
  }

  lemma {:induction false} DoAppend<S>(b: Builder<S>, st: Option<S>, first: seq<Call>, calls: seq<Call>)
    ensures DoCalls(b, st, first + calls) == DoCalls(b, DoCalls(b, st, first), calls)
    decreases |calls|
  {
    if calls == [] {
      assert first + calls == first;
    } else {
      var n := |calls| - 1;
      DoAppend(b, st, first, calls[..n]);
      assert (first + calls)[..|first + calls| - 1] == first + calls[..n];
    }
  }

  lemma {:induction false} RunIsCalls<S>(b: Builder<S>, ops: seq<Op>, built: seq<string>, st: Option<S>)
    requires RunOps(b, ops, built, st).Ran?
    ensures var r := RunOps(b, ops, built, st); r.st == DoCalls(b, st, r.calls)
    decreases |ops|
  {
    if ops != [] {
      var n := |ops| - 1;
      RunIsCalls(b, ops[..n], built, st);
      var r := RunOps(b, ops, built, st);
      assert r.calls[..|r.calls| - 1] == RunOps(b, ops[..n], built, st).calls;
    }
  }

  lemma FlatSame(a: seq<seq<Call>>, b: seq<seq<Call>>, n: nat)
    requires n <= |a| && n <= |b| && a[..n] == b[..n]
    ensures Flat(a, n) == Flat(b, n)
  {
    if n > 0 {
      assert a[n - 1] == a[..n][n - 1] == b[n - 1];
      assert a[..n - 1] == a[..n][..n - 1] == b[..n - 1];
      FlatSame(a, b, n - 1);
    }
  }

  /** A build does nothing but its calls, stage by stage: the builder ends where they lead,
      and a selected stage has the image that the builder has after its calls. */
  lemma {:induction false} BuildIsCalls<S>(b: Builder<S>, stages: seq<Stage>, selected: Option<set<nat>>,
                                           st: Option<S>, n: nat)
    requires n <= |stages| && ApplyAll(b, stages, selected, st, n).Built?
    ensures var r := ApplyAll(b, stages, selected, st, n);
      && |r.images| == |r.calls| == |stages| && r.st == DoCalls(b, st, Flat(r.calls, n))
      && (forall j :: 0 <= j < n && !IsSelected(selected, j) ==> r.calls[j] == [] && r.images[j] == "")
      && (n > 0 && IsSelected(selected, n - 1) ==> r.st.Some? && r.images[n - 1] == b.image(r.st.value))
  {
    hide RunOps, DoCalls;
    ApplyShape(b, stages, selected, st, n);
    if n == 0 {
      NoCalls(b, st);
    } else {
      BuildIsCalls(b, stages, selected, st, n - 1);
      EarlierStay(b, stages, selected, st, n - 1, n);
      NotYet(b, stages, selected, st, n - 1);
      var r, q := ApplyAll(b, stages, selected, st, n), ApplyAll(b, stages, selected, st, n - 1);
      FlatSame(r.calls, q.calls, n - 1);
      forall j | 0 <= j < n && !IsSelected(selected, j) ensures r.calls[j] == [] && r.images[j] == "" {
        if j < n - 1 { assert r.calls[j] == r.calls[..n - 1][j] && r.images[j] == r.images[..n - 1][j]; }
      }
      if IsSelected(selected, n - 1) {
        RunIsCalls(b, stages[n - 1].ops, q.images, q.st);
        DoAppend(b, st, Flat(q.calls, n - 1), r.calls[n - 1]);
      } else {
        assert Flat(r.calls, n) == Flat(q.calls, n - 1) + [] == Flat(q.calls, n - 1);
      }
    }
  }

  lemma NoCalls<S>(b: Builder<S>, st: Option<S>)
    ensures DoCalls(b, st, []) == st
  {
  }

  lemma {:induction false} NotYet<S>(b: Builder<S>, stages: seq<Stage>, selected: Option<set<nat>>, st: Option<S>,
                                     n: nat)
    requires n <= |stages| && ApplyAll(b, stages, selected, st, n).Built?
    ensures var r := ApplyAll(b, stages, selected, st, n);
      |r.images| == |r.calls| == |stages| && forall j :: n <= j < |stages| ==> r.calls[j] == [] && r.images[j] == ""
  {
    hide RunOps;
    ApplyShape(b, stages, selected, st, n);
    if n > 0 { NotYet(b, stages, selected, st, n - 1); }
  }

  // -------------------------------------------------------------- when a build fails

  /** No call fails, one after the other. */
  ghost predicate Goes<S>(b: Builder<S>, st: Option<S>, calls: seq<Call>) {
    forall k :: 0 < k <= |calls| ==> DoCalls(b, st, calls[..k]).Some?
  }

  ghost predicate CallsFor(names: seq<string>, images: seq<string>, group: seq<Line>, calls: seq<Call>)
    requires |names| == |images|
  {
    |calls| == |group| && forall m :: 0 <= m < |group| ==> CallFor(names, images, group[m], calls[m])
  }

  lemma OneCall(names: seq<string>, images: seq<string>, built: seq<string>, line: Line, op: Op, call: Call)
    requires OpFor(names, line, op) && |names| == |images| <= |built| && images == built[..|images|]
    requires CallFor(names, images, line, call)
    ensures Resolve(op, built) == Some(call)
  {
    match line
    case From(image, _) =>
      var r :| RefersTo(names, image, r) && !r.NoRef? && op == if r.ToStage? then FromStage(r.i) else FromImage(image);
      var r' :| RefersTo(names, image, r') && !r'.NoRef? &&
        call == CallFrom(if r'.ToStage? then images[r'.i] else image);
      OneRef(names, image, r, r');
    case Copy(source, args, add) =>
      var r :| RefersTo(names, source, r) &&
        op == if r.ToStage? then CopyFromStage(r.i, args, add) else CopyFrom(source, args, add);
      var r' :| RefersTo(names, source, r') &&
        var image := if r'.ToStage? then images[r'.i] else source;
        if image == "" then call == CallFiles(args, add) else !add && call == CallCopy(image, args);
      OneRef(names, source, r, r');
    case Plain(_) =>
  }

  lemma {:induction false} RunGoes<S>(b: Builder<S>, ops: seq<Op>, built: seq<string>, st: Option<S>)
    requires RunOps(b, ops, built, st).Ran?
    ensures var r := RunOps(b, ops, built, st); |r.calls| == |ops| && Goes(b, st, r.calls)
    decreases |ops|
  {
    if ops != [] {
      var n := |ops| - 1;
      RunGoes(b, ops[..n], built, st);
      RunIsCalls(b, ops, built, st);
      var r, q := RunOps(b, ops, built, st), RunOps(b, ops[..n], built, st);
      hide DoCalls, Resolve;
      assert r.calls[..n] == q.calls;
      forall k | 0 < k <= |r.calls| ensures DoCalls(b, st, r.calls[..k]).Some? {
        if k <= n {
          assert r.calls[..k] == q.calls[..k];
        } else {
          assert r.calls[..k] == r.calls;
        }
      }
    }
  }

  lemma {:induction false} GoesRun<S>(b: Builder<S>, ops: seq<Op>, built: seq<string>, st: Option<S>, calls: seq<Call>)
    requires |calls| == |ops| && Goes(b, st, calls)
    requires forall m :: 0 <= m < |ops| ==> Resolve(ops[m], built) == Some(calls[m])
    ensures RunOps(b, ops, built, st) == Ran(DoCalls(b, st, calls), calls)
    decreases |ops|
  {
    if ops != [] {
      var n := |ops| - 1;
      forall k | 0 < k <= n ensures DoCalls(b, st, calls[..n][..k]).Some? {
        assert calls[..n][..k] == calls[..k];
      }
      GoesRun(b, ops[..n], built, st, calls[..n]);
      assert calls == calls[..n] + [calls[n]] && calls[..n + 1] == calls;
    }
  }

  /** A stage runs exactly if its lines stand for calls, and none of them fails. */
  lemma RunsIff<S>(b: Builder<S>, names: seq<string>, images: seq<string>, built: seq<string>, group: seq<Line>,
                   s: Stage, st: Option<S>)
    requires StageFor(names, group, s) && |names| == |images| <= |built| && images == built[..|images|]
    ensures RunOps(b, s.ops, built, st).Ran? <==>
      exists calls :: CallsFor(names, images, group, calls) && Goes(b, st, calls)
  {
    hide Goes, RunOps, Resolve, OpFor, CallFor;
    if RunOps(b, s.ops, built, st).Ran? {
      RunGoes(b, s.ops, built, st);
      var calls := RunOps(b, s.ops, built, st).calls;
      forall m | 0 <= m < |group| ensures CallFor(names, images, group[m], calls[m]) {
        RunCalls(b, s.ops, built, st, m);
        ResolvedCall(names, images, built, group[m], s.ops[m]);
      }
      assert CallsFor(names, images, group, calls);
    }
    if calls :| CallsFor(names, images, group, calls) && Goes(b, st, calls) {
      forall m | 0 <= m < |group| ensures Resolve(s.ops[m], built) == Some(calls[m]) {
        OneCall(names, images, built, group[m], s.ops[m], calls[m]);
      }
      GoesRun(b, s.ops, built, st, calls);
    }
  }

  /** A build that came to a selected stage gets through it exactly if its lines stand for
      calls on the images built so far, and none of them fails. */
  lemma BuildsIff<S>(b: Builder<S>, lines: seq<Line>, selected: Option<set<nat>>, st: Option<S>, j: nat)
    requires Load(lines).Some? && IsSelected(selected, j) && j < |Groups(lines)| == |Load(lines).value|
    requires ApplyAll(b, Load(lines).value, selected, st, j).Built?
    ensures var groups, r := Groups(lines), ApplyAll(b, Load(lines).value, selected, st, j);
      && |r.images| == |groups|
      && (ApplyAll(b, Load(lines).value, selected, st, j + 1).Built? <==>
          exists calls :: CallsFor(NamesOf(groups)[..j], r.images[..j], groups[j], calls) && Goes(b, r.st, calls))
  {
    hide RunOps, Load, Groups, CallsFor, Goes;
    LoadsLines(lines);
    var stages, groups := Load(lines).value, Groups(lines);
    LoadedNames(groups, stages);
    assert LoadedAt(groups, stages, j);
    hide LoadedAs, LoadedAt, StageNames, NamesOf;
    ApplyShape(b, stages, selected, st, j);
    var r := ApplyAll(b, stages, selected, st, j);
    RunsIff(b, NamesOf(groups)[..j], r.images[..j], r.images, groups[j], stages[j], r.st);
    if RunOps(b, stages[j].ops, r.images, r.st).Ran? {
      RanIsSome(b, stages[j].ops, r.images, r.st);
    }
  }

  lemma RanIsSome<S>(b: Builder<S>, ops: seq<Op>, built: seq<string>, st: Option<S>)
    requires RunOps(b, ops, built, st).Ran? && ops != []
    ensures RunOps(b, ops, built, st).st.Some?
  {
  }
}
