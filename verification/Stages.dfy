/** Dockerfile build stages: how they depend on each other, and building only those that
    some targets need. */
module Stages {
  import opened Options
  import opened Text

  /** What a stage does. The image of another stage is read when the stage runs. */
  datatype Op =
    | FromImage(image: string)
    | FromStage(stage: nat)
    | CopyFrom(image: string, args: string, add: bool)
    | CopyFromStage(stage: nat, args: string, add: bool)
    | Other(call: string)

  datatype Stage = Stage(name: string, ops: seq<Op>, deps: set<nat>)

  /** A parsed instruction with its variables substituted. */
  datatype Line =
    | From(image: string, alias: Option<string>)
    | Copy(source: string, args: string, add: bool)
    | Plain(call: string)

  // ------------------------------------------------------------- finding a stage

  /** The numbers of 32 bits. */
  const INT32 := 0x8000_0000

  datatype Found = Internal(stage: nat) | External | Unknown

  /** The first stage with the name. */
  function FirstNamed(stages: seq<Stage>, name: string): Option<nat> {
    if stages == [] then None
    else
      var before := FirstNamed(stages[..|stages| - 1], name);
      if before.Some? then before
      else if stages[|stages| - 1].name == name then Some(|stages| - 1)
      else None
  }

  /** findStage: a number is the index of a stage, anything else a name. */
  function FindStage(stages: seq<Stage>, name: string): Found {
    if name == "" then External
    else
      match ParseInt(name, INT32)
      case Some(i) => if 0 <= i < |stages| then Internal(i) else Unknown
      case None =>
        match FirstNamed(stages, name)
        case Some(i) => Internal(i)
        case None => External
  }

  /** The stage found has the name and no earlier one does; none is found if none has it. */
  lemma {:induction false} FirstNamedIs(stages: seq<Stage>, name: string)
    ensures match FirstNamed(stages, name)
      case Some(i) => i < |stages| && stages[i].name == name && forall j :: 0 <= j < i ==> stages[j].name != name
      case None => forall j :: 0 <= j < |stages| ==> stages[j].name != name
    decreases |stages|
  {
    if stages != [] {
      FirstNamedIs(stages[..|stages| - 1], name);
      assert forall j :: 0 <= j < |stages| - 1 ==> stages[..|stages| - 1][j] == stages[j];
    }
  }

  // ---------------------------------------------------------------- dependencies

  function Refs(ops: seq<Op>): set<nat> {
    set i | 0 <= i < |ops| && (ops[i].FromStage? || ops[i].CopyFromStage?) :: ops[i].stage
  }

  /** A stage starts with FROM, and its dependencies are earlier stages: the ones it
      reads and all of theirs. */
  predicate StageOk(stages: seq<Stage>, i: nat)
    requires i < |stages|
  {
    var s := stages[i];
    && s.ops != [] && (s.ops[0].FromImage? || s.ops[0].FromStage?)
    && Refs(s.ops) <= s.deps
    && (forall d :: d in s.deps ==> d < i && stages[d].deps <= s.deps)
    && (forall d :: d in s.deps ==> d in Refs(s.ops) || exists r :: r in Refs(s.ops) && d in stages[r].deps)
  }

  predicate StagesOk(stages: seq<Stage>) {
    forall i :: 0 <= i < |stages| ==> StageOk(stages, i)
  }

  /** A chain of stages in which each reads the image of the next one. */
  predicate Chain(stages: seq<Stage>, i: nat, path: seq<nat>) {
    && i < |stages| && path != [] && path[0] in Refs(stages[i].ops)
    && (forall k :: 0 <= k < |path| ==> path[k] < |stages|)
    && (forall k :: 1 <= k < |path| ==> path[k] in Refs(stages[path[k - 1]].ops))
  }

  /** Whatever a stage reads, directly or through others, is among its dependencies ... */
  lemma {:induction false} ReachedAreDeps(stages: seq<Stage>, i: nat, path: seq<nat>)
    requires StagesOk(stages) && Chain(stages, i, path)
    ensures path[|path| - 1] in stages[i].deps
    decreases |path|
  {
    assert StageOk(stages, i);
    if |path| > 1 {
      var n := |path| - 1;
      ReachedAreDeps(stages, i, path[..n]);
      assert StageOk(stages, path[n - 1]);
    }
  }

  /** ... and nothing else is. */
  lemma {:induction false} DepsAreReached(stages: seq<Stage>, i: nat, d: nat) returns (path: seq<nat>)
    requires StagesOk(stages) && i < |stages| && d in stages[i].deps
    ensures Chain(stages, i, path) && path[|path| - 1] == d
    decreases i
  {
    assert StageOk(stages, i);
    if d in Refs(stages[i].ops) {
      path := [d];
    } else {
      var r :| r in Refs(stages[i].ops) && d in stages[r].deps;
      var rest := DepsAreReached(stages, r, d);
      path := [r] + rest;
      forall k | 1 <= k < |path|
        ensures path[k] in Refs(stages[path[k - 1]].ops)
      {
        if k > 1 { assert path[k] == rest[k - 1] && path[k - 1] == rest[k - 2]; }
      }
    }
  }

  // --------------------------------------------------------------------- loading

  /** The dependencies after buildStage.addDependency. */
  function Depends(deps: set<nat>, stages: seq<Stage>, found: Found): set<nat> {
    if found.Internal? && found.stage < |stages| then deps + {found.stage} + stages[found.stage].deps else deps
  }

  function Append(stages: seq<Stage>, op: Op, deps: set<nat>): seq<Stage>
    requires stages != []
  {
    var n := |stages| - 1;
    stages[n := stages[n].(ops := stages[n].ops + [op], deps := deps)]
  }

  /** DockerfileBuilder.readNode: the stages after one more instruction, unless it fails. */
  function Read(stages: seq<Stage>, line: Line): Option<seq<Stage>> {
    match line
    case From(image, alias) =>
      var found := FindStage(stages, image);
      if image == "" || found.Unknown? then None
      else
        var name := if alias.Some? then alias.value else ShowNat(|stages|, Decimal);
        var op := if found.Internal? then FromStage(found.stage) else FromImage(image);
        Some(stages + [Stage(name, [op], Depends({}, stages, found))])
    case Copy(source, args, add) =>
      if stages == [] then None
      else
        var found := FindStage(stages[..|stages| - 1], source);
        if found.Unknown? then None
        else
          var op := if found.Internal? then CopyFromStage(found.stage, args, add) else CopyFrom(source, args, add);
          Some(Append(stages, op, Depends(stages[|stages| - 1].deps, stages, found)))
    case Plain(call) =>
      if stages == [] then None else Some(Append(stages, Other(call), stages[|stages| - 1].deps))
  }

  lemma FoundInRange(stages: seq<Stage>, name: string)
    ensures FindStage(stages, name).Internal? ==> FindStage(stages, name).stage < |stages|
  {
    FirstNamedIs(stages, name);
  }

  lemma RefsSnoc(ops: seq<Op>, op: Op)
    ensures Refs(ops + [op]) == Refs(ops) + if op.FromStage? || op.CopyFromStage? then {op.stage} else {}
  {
    var more := ops + [op];
    forall r | r in Refs(ops)
      ensures r in Refs(more)
    {
      var i :| 0 <= i < |ops| && (ops[i].FromStage? || ops[i].CopyFromStage?) && ops[i].stage == r;
      assert more[i] == ops[i];
    }
    assert more[|ops|] == op;
  }

  /** Every loaded Dockerfile has its dependencies recorded. */
  lemma ReadKeepsStages(stages: seq<Stage>, line: Line)
    requires StagesOk(stages)
    ensures Read(stages, line).Some? ==> StagesOk(Read(stages, line).value)
  {
    var r := Read(stages, line);
    if r.Some? {
      var n := |r.value| - 1;
      if line.From? {
        FoundInRange(stages, line.image);
        var found := FindStage(stages, line.image);
        if found.Internal? { assert StageOk(stages, found.stage); }
        RefsSnoc([], r.value[n].ops[0]);
        assert [] + r.value[n].ops == r.value[n].ops;
        assert Refs([]) == {};
      } else {
        assert StageOk(stages, n);
        if line.Copy? {
          FoundInRange(stages[..n], line.source);
          var found := FindStage(stages[..n], line.source);
          if found.Internal? { assert StageOk(stages, found.stage); }
        }
        RefsSnoc(stages[n].ops, r.value[n].ops[|stages[n].ops|]);
      }
      LastStageOk(stages, r.value, n);
    }
  }

  lemma LastStageOk(stages: seq<Stage>, more: seq<Stage>, n: nat)
    requires StagesOk(stages) && n == |more| - 1 && n <= |stages| <= n + 1 && more[..n] == stages[..n]
    requires more[n].ops != [] && (more[n].ops[0].FromImage? || more[n].ops[0].FromStage?)
    requires Refs(more[n].ops) <= more[n].deps
    requires forall d :: d in more[n].deps ==> d < n && stages[d].deps <= more[n].deps
    requires forall d :: d in more[n].deps ==>
      d in Refs(more[n].ops) || exists r :: r in Refs(more[n].ops) && d in stages[r].deps
    ensures StagesOk(more)
  {
    assert forall d :: 0 <= d < n ==> more[d] == more[..n][d] == stages[..n][d] == stages[d];
    forall i | 0 <= i < |more|
      ensures StageOk(more, i)
    {
      if i < n { assert StageOk(stages, i); }
    }
  }

  // -------------------------------------------------------------------- building

  /** A call on the image builder. */
  datatype Call =
    | CallFrom(image: string)
    | CallFiles(args: string, add: bool)
    | CallCopy(image: string, args: string)
    | CallOther(call: string)

  /** Any image builder: what FromImage makes of its state, and what the other calls do. */
  datatype Builder<!S> = Builder(
    start: (Option<S>, string) -> Option<S>,
    step: (S, Call) -> Option<S>,
    image: S -> string)

  /** FromImage starts over. */
  ghost predicate StartsOver<S(!new)>(b: Builder<S>) {
    forall x, y, image :: b.start(x, image) == b.start(y, image)
  }

  /** opCopy and opAdd: without an image the files come from the build context, and ADD
      does not take files from images. */
  function CopyCall(image: string, args: string, add: bool): Option<Call> {
    if image == "" then Some(CallFiles(args, add))
    else if add then None
    else Some(CallCopy(image, args))
  }

  function Resolve(op: Op, built: seq<string>): Option<Call> {
    match op
    case FromImage(image) => Some(CallFrom(image))
    case FromStage(i) => if i < |built| then Some(CallFrom(built[i])) else None
    case CopyFrom(image, args, add) => CopyCall(image, args, add)
    case CopyFromStage(i, args, add) => if i < |built| then CopyCall(built[i], args, add) else None
    case Other(call) => Some(CallOther(call))
  }

  function Do<S>(b: Builder<S>, st: Option<S>, call: Call): Option<S> {
    match call
    case CallFrom(image) => b.start(st, image)
    case _ => if st.Some? then b.step(st.value, call) else None
  }

  /** The outcome of running a stage: nothing on an error, else the calls made, the
      builder afterwards and the image built. */
  datatype Outcome<S> = Failed | Ran(st: Option<S>, calls: seq<Call>)

  function RunOps<S>(b: Builder<S>, ops: seq<Op>, built: seq<string>, st: Option<S>): Outcome<S>
    decreases |ops|
  {
    if ops == [] then Ran(st, [])
    else
      var n := |ops| - 1;
      var r := RunOps(b, ops[..n], built, st);
      if r.Failed? then Failed
      else
        match Resolve(ops[n], built)
        case None => Failed
        case Some(call) =>
          var st' := Do(b, r.st, call);
          if st'.None? then Failed else Ran(st', r.calls + [call])
  }

  /** A build: the image per stage ("" where none was built) and the calls per stage. */
  datatype Build<S> = Broken | Built(st: Option<S>, images: seq<string>, calls: seq<seq<Call>>)

  function ApplyAll<S>(b: Builder<S>, stages: seq<Stage>, selected: Option<set<nat>>, st: Option<S>, n: nat): Build<S>
    requires n <= |stages|
  {
    if n == 0 then Built(st, seq(|stages|, _ => ""), seq(|stages|, _ => []))
    else
      var r := ApplyAll(b, stages, selected, st, n - 1);
      if r.Broken? || (selected.Some? && n - 1 !in selected.value) then r
      else ApplyStage(b, stages[n - 1], r, n - 1)
  }

  function ApplyStage<S>(b: Builder<S>, s: Stage, r: Build<S>, i: nat): Build<S>
    requires r.Built?
  {
    var o := RunOps(b, s.ops, r.images, r.st);
    if o.Failed? || o.st.None? || i >= |r.images| || i >= |r.calls| then Broken
    else Built(o.st, r.images[i := b.image(o.st.value)], r.calls[i := o.calls])
  }

  // --------------------------------------------------------------------- slicing

  /** A selection that has, with a stage, everything the stage depends on. */
  predicate Complete(stages: seq<Stage>, selected: set<nat>) {
    forall i :: i in selected ==> i < |stages| && stages[i].deps <= selected
  }

  lemma {:induction false} ApplyShape<S>(b: Builder<S>, stages: seq<Stage>, selected: Option<set<nat>>, st: Option<S>,
                                         n: nat)
    requires n <= |stages|
    ensures var r := ApplyAll(b, stages, selected, st, n);
      r.Built? ==> |r.images| == |r.calls| == |stages|
  {
    if n > 0 { ApplyShape(b, stages, selected, st, n - 1); }
  }

  /** A stage's run depends on the images it reads, and on nothing before its FROM. */
  lemma {:induction false} RunOpsLocal<S(!new)>(b: Builder<S>, ops: seq<Op>, xs: seq<string>, ys: seq<string>,
                                                st: Option<S>, st': Option<S>)
    requires StartsOver(b) && ops != [] && (ops[0].FromImage? || ops[0].FromStage?) && |xs| == |ys|
    requires forall i :: i in Refs(ops) && i < |xs| ==> xs[i] == ys[i]
    ensures RunOps(b, ops, xs, st) == RunOps(b, ops, ys, st')
    decreases |ops|
  {
    var n := |ops| - 1;
    assert forall i :: 0 <= i < n ==> ops[..n][i] == ops[i];
    assert Refs(ops[..n]) <= Refs(ops);
    if ops[n].FromStage? || ops[n].CopyFromStage? { assert ops[n].stage in Refs(ops); }
    assert Resolve(ops[n], xs) == Resolve(ops[n], ys);
    if n > 0 {
      RunOpsLocal(b, ops[..n], xs, ys, st, st');
    } else {
      assert RunOps(b, ops[..0], xs, st) == Ran(st, []);
      assert RunOps(b, ops[..0], ys, st') == Ran(st', []);
    }
  }

  predicate Agrees<S(==)>(x: Build<S>, y: Build<S>, selected: set<nat>, n: nat) {
    && x.Built? && y.Built? && |x.images| == |y.images| && |x.calls| == |y.calls|
    && (forall i :: i in selected && i < n && i < |x.images| ==> x.images[i] == y.images[i])
    && (forall i :: i in selected && i < n && i < |x.calls| ==> x.calls[i] == y.calls[i])
  }

  /** Stage slicing: if the whole Dockerfile builds, then building only a complete
      selection succeeds too, and each selected stage makes the same builder calls and
      gets the same image, for every builder that starts over with FROM. */
  lemma {:induction false} SliceAgrees<S(!new)>(b: Builder<S>, stages: seq<Stage>, selected: set<nat>, st: Option<S>,
                                                n: nat)
    requires StartsOver(b) && StagesOk(stages) && Complete(stages, selected) && n <= |stages|
    requires ApplyAll(b, stages, None, st, n).Built?
    ensures Agrees(ApplyAll(b, stages, None, st, n), ApplyAll(b, stages, Some(selected), st, n), selected, n)
  {
    ApplyShape(b, stages, None, st, n);
    ApplyShape(b, stages, Some(selected), st, n);
    if n > 0 {
      SliceAgrees(b, stages, selected, st, n - 1);
      var x := ApplyAll(b, stages, None, st, n - 1);
      var y := ApplyAll(b, stages, Some(selected), st, n - 1);
      if n - 1 in selected {
        assert StageOk(stages, n - 1);
        ApplyShape(b, stages, None, st, n - 1);
        RunOpsLocal(b, stages[n - 1].ops, x.images, y.images, x.st, y.st);
      }
    }
  }

  /** When a selected stage runs, every stage whose image it reads was built before it. */
  lemma ReadsAreBuilt(stages: seq<Stage>, selected: set<nat>, i: nat, d: nat)
    requires StagesOk(stages) && Complete(stages, selected) && i in selected && d in Refs(stages[i].ops)
    ensures d < i && d in selected
  {
    assert StageOk(stages, i);
  }

  // ------------------------------------------------------------ DockerfileBuilder

  /** The stage Target picks: the last one with the name. */
  function LastNamed(stages: seq<Stage>, name: string): Option<nat> {
    if stages == [] then None
    else if stages[|stages| - 1].name == name then Some(|stages| - 1)
    else LastNamed(stages[..|stages| - 1], name)
  }

  /** The stage found has the name and no later one does; none is found if none has it. */
  lemma {:induction false} LastNamedIs(stages: seq<Stage>, name: string)
    ensures match LastNamed(stages, name)
      case Some(i) => i < |stages| && stages[i].name == name && forall j :: i < j < |stages| ==> stages[j].name != name
      case None => forall j :: 0 <= j < |stages| ==> stages[j].name != name
    decreases |stages|
  {
    if stages != [] {
      LastNamedIs(stages[..|stages| - 1], name);
      assert forall j :: 0 <= j < |stages| - 1 ==> stages[..|stages| - 1][j] == stages[j];
    }
  }

  /** findStage's loop. */
  method SearchStage(stages: seq<Stage>, name: string) returns (r: Found)
    ensures r == FindStage(stages, name)
  {
    if name == "" { return External; }
    var id := ParseInt(name, INT32);
    if id.Some? {
      return if 0 <= id.value < |stages| then Internal(id.value) else Unknown;
    }
    var i := 0;
    while i < |stages|
      invariant 0 <= i <= |stages| && FirstNamed(stages[..i], name).None?
    {
      assert stages[..i + 1][..i] == stages[..i];
      if stages[i].name == name {
        FirstStays(stages, name, i + 1);
        return Internal(i);
      }
      i := i + 1;
    }
    assert stages[..i] == stages;
    return External;
  }

  lemma {:induction false} FirstStays(stages: seq<Stage>, name: string, n: nat)
    requires n <= |stages| && FirstNamed(stages[..n], name).Some?
    ensures FirstNamed(stages, name) == FirstNamed(stages[..n], name)
    decreases |stages|
  {
    if n == |stages| {
      assert stages[..n] == stages;
    } else {
      var m := |stages| - 1;
      assert stages[..m][..n] == stages[..n];
      FirstStays(stages[..m], name, n);
    }
  }

  class DockerfileBuilder {
    var stages: seq<Stage>
    var selected: Option<set<nat>>

    /** The dependencies of every loaded stage are recorded, and with a selected stage
        everything it depends on is selected. */
    ghost predicate Valid()
      reads this
    {
      StagesOk(stages) && (selected.Some? ==> Complete(stages, selected.value))
    }

    constructor ()
      ensures Valid() && stages == [] && selected == None
    {
      stages, selected := [], None;
    }

    /** readNode, on a builder that has no target yet. */
    method ReadNode(line: Line) returns (ok: bool)
      requires Valid() && selected.None?
      modifies this`stages
      ensures Valid()
      ensures ok == Read(old(stages), line).Some?
      ensures stages == if ok then Read(old(stages), line).value else old(stages)
    {
      ReadKeepsStages(stages, line);
      ok := true;
      match line {
        case From(image, alias) =>
          if image == "" { return false; }
          var found := SearchStage(stages, image);
          if found.Unknown? { return false; }
          var name := if alias.Some? then alias.value else ShowNat(|stages|, Decimal);
          var op := if found.Internal? then FromStage(found.stage) else FromImage(image);
          var deps := Depends({}, stages, found);
          stages := stages + [Stage(name, [op], deps)];
        case Copy(source, args, add) =>
          if stages == [] { return false; }
          var n := |stages| - 1;
          var found := SearchStage(stages[..n], source);
          if found.Unknown? { return false; }
          var op := if found.Internal? then CopyFromStage(found.stage, args, add) else CopyFrom(source, args, add);
          var deps := Depends(stages[n].deps, stages, found);
          stages := stages[n := stages[n].(ops := stages[n].ops + [op], deps := deps)];
        case Plain(call) =>
          if stages == [] { return false; }
          var n := |stages| - 1;
          stages := stages[n := stages[n].(ops := stages[n].ops + [Other(call)])];
      }
    }

    method Target(name: string) returns (ok: bool)
      requires Valid()
      modifies this`selected
      ensures Valid()
      ensures ok == LastNamed(stages, name).Some?
      ensures !ok ==> selected == old(selected)
      ensures ok ==>
        var i := LastNamed(stages, name).value;
        && i < |stages|
        && selected == Some((if old(selected).Some? then old(selected).value else {}) + {i} + stages[i].deps)
    {
      var stage: Option<nat> := None;
      var i := 0;
      while i < |stages|
        invariant 0 <= i <= |stages|
        invariant stage == LastNamed(stages[..i], name)
        invariant stage.Some? ==> stage.value < i
      {
        assert stages[..i + 1][..i] == stages[..i];
        if stages[i].name == name { stage := Some(i); }
        i := i + 1;
      }
      assert stages[..i] == stages;
      if stage.None? { return false; }
      assert StageOk(stages, stage.value);
      var before := if selected.Some? then selected.value else {};
      selected := Some(before + {stage.value} + stages[stage.value].deps);
      return true;
    }

    /** Apply: the selected stages in order, each keeping the ID of the image it built. */
    method Apply<S(==)>(b: Builder<S>, st: Option<S>) returns (r: Build<S>)
      requires Valid()
      ensures stages == [] ==> r.Broken?
      ensures stages != [] ==> r == ApplyAll(b, stages, selected, st, |stages|)
    {
      if stages == [] { return Broken; }
      var now, images, calls := st, seq(|stages|, _ => ""), seq(|stages|, _ => []);
      var i := 0;
      while i < |stages|
        invariant 0 <= i <= |stages| == |images| == |calls|
        invariant Built(now, images, calls) == ApplyAll(b, stages, selected, st, i)
      {
        if selected.None? || i in selected.value {
          var o := RunStage(b, stages[i].ops, images, now);
          if o.Failed? || o.st.None? {
            BrokenStays(b, stages, selected, st, i + 1, |stages|);
            return Broken;
          }
          now, images, calls := o.st, images[i := b.image(o.st.value)], calls[i := o.calls];
        }
        i := i + 1;
      }
      return Built(now, images, calls);
    }
  }

  /** buildStage.apply. */
  method RunStage<S(==)>(b: Builder<S>, ops: seq<Op>, built: seq<string>, st: Option<S>) returns (r: Outcome<S>)
    ensures r == RunOps(b, ops, built, st)
  {
    r := Ran(st, []);
    var i := 0;
    while i < |ops|
      invariant 0 <= i <= |ops| && r.Ran?
      invariant r == RunOps(b, ops[..i], built, st)
    {
      assert ops[..i + 1][..i] == ops[..i];
      var call := Resolve(ops[i], built);
      var now := if call.Some? then Do(b, r.st, call.value) else None;
      if now.None? {
        FailedStays(b, ops, built, st, i + 1);
        return Failed;
      }
      r := Ran(now, r.calls + [call.value]);
      i := i + 1;
    }
    assert ops[..i] == ops;
  }

  lemma {:induction false} FailedStays<S>(b: Builder<S>, ops: seq<Op>, built: seq<string>, st: Option<S>, n: nat)
    requires n <= |ops| && RunOps(b, ops[..n], built, st).Failed?
    ensures RunOps(b, ops, built, st).Failed?
    decreases |ops|
  {
    if n == |ops| {
      assert ops[..n] == ops;
    } else {
      var m := |ops| - 1;
      assert ops[..m][..n] == ops[..n];
      FailedStays(b, ops[..m], built, st, n);
    }
  }

  lemma {:induction false} BrokenStays<S>(b: Builder<S>, stages: seq<Stage>, selected: Option<set<nat>>, st: Option<S>,
                                          n: nat, m: nat)
    requires n <= m <= |stages| && ApplyAll(b, stages, selected, st, n).Broken?
    ensures ApplyAll(b, stages, selected, st, m).Broken?
    decreases m
  {
    if n < m { BrokenStays(b, stages, selected, st, n, m - 1); }
  }
}
