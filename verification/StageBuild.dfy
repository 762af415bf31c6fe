/** Building only some stages of a Dockerfile with the builder that keeps root file systems
    and a cache across stages, so that FROM does not start over. */
module StageBuild {
  import opened Options
  import opened ImageBuild
  import Stages

  /** The operation of a call. The image of FROM and of COPY --from is that of the call. */
  ghost predicate Translates(op: Stages.Call -> Op) {
    && (forall image :: op(Stages.CallFrom(image)) == From(image))
    && (forall image, args ::
         op(Stages.CallCopy(image, args)).CopyFrom? && op(Stages.CallCopy(image, args)).source == image)
    && (forall image, other, args ::
         op(Stages.CallCopy(image, args)).(source := other) == op(Stages.CallCopy(other, args)))
  }

  function ImageId(i: Option<Image>): string {
    if i.Some? then i.value.id else ""
  }

  /** The builder as it is: FROM works on the state that the stages before left. */
  function Engine(w: World, op: Stages.Call -> Op): Stages.Builder<State> {
    Stages.Builder(
      (s: Option<State>, image: string) => if s.Some? then Do(w, s.value, op(Stages.CallFrom(image))) else None,
      (s: State, c: Stages.Call) => Do(w, s, op(c)),
      (s: State) => ImageId(s.image))
  }

  /** The builder that computes every image from its parent. */
  function Reference(w: World, op: Stages.Call -> Op): Stages.Builder<Option<Image>> {
    Stages.Builder(
      (_: Option<Option<Image>>, image: string) => Meaning(w, None, op(Stages.CallFrom(image))),
      (i: Option<Image>, c: Stages.Call) => Meaning(w, i, op(c)),
      (i: Option<Image>) => if i.Some? then i.value.id else "")
  }

  // ------------------------------------------------------------------- alike images

  /** IDs of images that count as the same, or of none. */
  predicate IdsAlike(w: World, x: string, y: string) {
    if x == "" || y == "" then x == y else Names(w, x) && Names(w, y) && Alike(w, w.resolve(x), w.resolve(y))
  }

  predicate Names(w: World, id: string) {
    id != "scratch" && w.resolve(id).Some? && w.resolve(id).value.id == id
  }

  /** The names that mean no image are not resolved to one. */
  predicate Reserved(w: World) {
    w.resolve("").None? && w.resolve("scratch").None?
  }

  lemma ImagesAlike(w: World, i: Option<Image>, j: Option<Image>)
    requires Reserved(w) && Known(w, i) && Known(w, j) && Alike(w, i, j)
    ensures IdsAlike(w, ImageId(i), ImageId(j))
  {
  }

  /** The same operation, but for the image that it names. */
  predicate OpsAlike(w: World, o: Op, o': Op) {
    || o == o'
    || (o.From? && o'.From? && IdsAlike(w, o.name, o'.name))
    || (o.CopyFrom? && o'.CopyFrom? && o' == o.(source := o'.source) && IdsAlike(w, o.source, o'.source))
  }

  /** Images that count as the same can be named for each other. */
  ghost predicate Interchangeable(w: World) {
    forall i, o, o' :: Known(w, i) && OpsAlike(w, o, o') ==> SameOutcome(w, Meaning(w, i, o), Meaning(w, i, o'))
  }

  /** One operation against its meaning for a parent that counts as the same. */
  lemma StepMeans(w: World, s: State, i: Option<Image>, o: Op, o': Op)
    requires Sound(w) && Interchangeable(w) && Coherent(w, s) && Known(w, i) && (o.From? || Alike(w, s.image, i))
    requires OpsAlike(w, o, o') && Clean(w, s, o)
    ensures var r, m := Do(w, s, o), Meaning(w, i, o');
      && r.Some? == m.Some?
      && (r.Some? ==> Coherent(w, r.value) && Known(w, m.value) && Alike(w, r.value.image, m.value))
  {
    Comparable(w, s);
    StepAgreesIff(w, s, o);
    MeaningKnown(w, i, o');
    var m, l, n := Meaning(w, s.image, o), Meaning(w, i, o), Meaning(w, i, o');
    assert SameOutcome(w, l, n);
    assert SameOutcome(w, m, l) by {
      if o.From? { FromAnywhere(w, s.image, i, o); }
    }
    hide Meaning, Do, Clean, Coherent, OpsAlike, WorldOk, Keyed, Respects, Interchangeable, Known;
    Outcomes(w, m, l, n);
  }

  lemma FromAnywhere(w: World, i: Option<Image>, j: Option<Image>, o: Op)
    requires o.From?
    ensures SameOutcome(w, Meaning(w, i, o), Meaning(w, j, o))
  {
  }

  // ---------------------------------------------------------------------- stages

  /** Every operation of a stage meets the condition on the state it is done in. */
  ghost predicate StageDoes(w: World, op: Stages.Call -> Op, ok: (State, Op) -> bool, ops: seq<Stages.Op>,
                            built: seq<string>, st: Option<State>)
    decreases |ops|
  {
    ops == [] ||
    var n := |ops| - 1;
    var r, c := Stages.RunOps(Engine(w, op), ops[..n], built, st), Stages.Resolve(ops[n], built);
    && StageDoes(w, op, ok, ops[..n], built, st)
    && (r.Ran? && r.st.Some? && c.Some? ==> ok(r.st.value, op(c.value)))
  }

  ghost predicate BuildDoes(w: World, op: Stages.Call -> Op, ok: (State, Op) -> bool, stages: seq<Stages.Stage>,
                            selected: Option<set<nat>>, s: State, n: nat)
    requires n <= |stages|
  {
    n == 0 ||
    var r := Stages.ApplyAll(Engine(w, op), stages, selected, Some(s), n - 1);
    && BuildDoes(w, op, ok, stages, selected, s, n - 1)
    && (r.Built? && (selected.Some? ==> n - 1 in selected.value) ==>
          StageDoes(w, op, ok, stages[n - 1].ops, r.images, r.st))
  }

  function IsClean(w: World): (State, Op) -> bool {
    (s: State, o: Op) => Clean(w, s, o)
  }

  function Follows(w: World): (State, Op) -> bool {
    (s: State, o: Op) => !LeavesBundleBehind(w, s, o)
  }

  ghost predicate GoodState(w: World, st: Option<State>) {
    st.Some? && Coherent(w, st.value)
  }

  ghost predicate BuiltAlike(w: World, xs: seq<string>, ys: seq<string>, refs: set<nat>) {
    |xs| == |ys| && forall i :: i in refs && i < |xs| ==> IdsAlike(w, xs[i], ys[i])
  }

  lemma CallsAlike(w: World, op: Stages.Call -> Op, o: Stages.Op, xs: seq<string>, ys: seq<string>, refs: set<nat>)
    requires Translates(op) && BuiltAlike(w, xs, ys, refs) && (o.FromStage? || o.CopyFromStage? ==> o.stage in refs)
    ensures var c, c' := Stages.Resolve(o, xs), Stages.Resolve(o, ys);
      && c.Some? == c'.Some?
      && (c.Some? ==> OpsAlike(w, op(c.value), op(c'.value)) && c.value.CallFrom? == c'.value.CallFrom?)
      && (c.Some? && (o.FromImage? || o.FromStage?) ==> c.value.CallFrom?)
      && (c.Some? && c.value.CallFrom? ==> op(c.value).From?)
  {
    hide Alike;
    var c, c' := Stages.Resolve(o, xs), Stages.Resolve(o, ys);
    if o.CopyFromStage? && c.Some? && c.value.CallCopy? {
      assert op(c.value).(source := c'.value.image) == op(c'.value);
    }
  }

  ghost predicate StatesAlike(w: World, st: Option<State>, i: Option<Option<Image>>) {
    GoodState(w, st) && i.Some? && Known(w, i.value) && Alike(w, st.value.image, i.value)
  }

  /** A stage, on whatever state, makes what it means, with images to read that count as
      the same. */
  lemma {:induction false} StageMeans(w: World, op: Stages.Call -> Op, ops: seq<Stages.Op>,
                                      xs: seq<string>, ys: seq<string>,
                                      st: Option<State>, i: Option<Option<Image>>)
    requires Sound(w) && Interchangeable(w) && Translates(op) && GoodState(w, st)
    requires ops != [] && (ops[0].FromImage? || ops[0].FromStage?) && BuiltAlike(w, xs, ys, Stages.Refs(ops))
    requires StageDoes(w, op, IsClean(w), ops, xs, st)
    ensures var r, m := Stages.RunOps(Engine(w, op), ops, xs, st), Stages.RunOps(Reference(w, op), ops, ys, i);
      r.Ran? == m.Ran? && (r.Ran? ==> StatesAlike(w, r.st, m.st))
    decreases |ops|
  {
    hide Do, Meaning, Clean, Coherent, WorldOk, Keyed, Respects, OpsAlike, Interchangeable, Alike, Known;
    var n := |ops| - 1;
    RefsPrefix(ops);
    CallsAlike(w, op, ops[n], xs, ys, Stages.Refs(ops));
    var r, m := Stages.RunOps(Engine(w, op), ops[..n], xs, st), Stages.RunOps(Reference(w, op), ops[..n], ys, i);
    var c, c' := Stages.Resolve(ops[n], xs), Stages.Resolve(ops[n], ys);
    if n > 0 {
      assert ops[..n][0] == ops[0];
      StageMeans(w, op, ops[..n], xs, ys, st, i);
      if r.Ran? && c.Some? {
        LastMeans(w, op, r.st.value, m.st.value, c.value, c'.value);
      }
    } else {
      assert r == Stages.Ran(st, []) && m == Stages.Ran(i, []);
      if c.Some? {
        NoImageKnown(w);
        LastMeans(w, op, st.value, None, c.value, c'.value);
        if i.Some? { FromAgain(w, i.value, op(c'.value)); }
      }
    }
  }

  lemma NoImageKnown(w: World)
    ensures Known(w, None)
  {
  }

  lemma FromAgain(w: World, i: Option<Image>, o: Op)
    requires o.From?
    ensures Meaning(w, i, o) == Meaning(w, None, o)
  {
  }

  lemma LastMeans(w: World, op: Stages.Call -> Op, s: State, i: Option<Image>, c: Stages.Call, c': Stages.Call)
    requires Sound(w) && Interchangeable(w) && Translates(op) && Coherent(w, s) && Known(w, i)
    requires c.CallFrom? == c'.CallFrom? && (c.CallFrom? || Alike(w, s.image, i))
    requires OpsAlike(w, op(c), op(c')) && Clean(w, s, op(c))
    ensures var r, m := Stages.Do(Engine(w, op), Some(s), c), Stages.Do(Reference(w, op), Some(i), c');
      r.Some? == m.Some? && (r.Some? ==> StatesAlike(w, r, m))
  {
    hide Do, Meaning, Clean, Coherent, WorldOk, Keyed, Respects, OpsAlike, Interchangeable, Alike, Known;
    StepMeans(w, s, i, op(c), op(c'));
    if c'.CallFrom? { FromAgain(w, i, op(c')); }
  }

  lemma RefsPrefix(ops: seq<Stages.Op>)
    requires ops != []
    ensures Stages.Refs(ops[..|ops| - 1]) <= Stages.Refs(ops)
    ensures var o := ops[|ops| - 1]; o.FromStage? || o.CopyFromStage? ==> o.stage in Stages.Refs(ops)
  {
    var n := |ops| - 1;
    assert forall i :: 0 <= i < n ==> ops[..n][i] == ops[i];
  }

  // ----------------------------------------------------------------- whole builds

  /** The stages that were built. */
  function BuiltStages(selected: Option<set<nat>>, n: nat): set<nat> {
    set i | 0 <= i < n && (selected.Some? ==> i in selected.value)
  }

  predicate Selects(stages: seq<Stages.Stage>, selected: Option<set<nat>>) {
    selected.Some? ==> Stages.Complete(stages, selected.value)
  }

  /** A build of all or some stages succeeds if and only if it means something, and every
      stage gets an image that counts as the one it means. */
  lemma {:induction false} BuildMeans(w: World, op: Stages.Call -> Op, stages: seq<Stages.Stage>,
                                      selected: Option<set<nat>>, s: State, n: nat)
    requires Sound(w) && Interchangeable(w) && Reserved(w) && Translates(op) && Coherent(w, s)
    requires Stages.StagesOk(stages) && Selects(stages, selected) && n <= |stages|
    requires BuildDoes(w, op, IsClean(w), stages, selected, s, n)
    ensures var x := Stages.ApplyAll(Engine(w, op), stages, selected, Some(s), n);
      var m := Stages.ApplyAll(Reference(w, op), stages, selected, None, n);
      && x.Built? == m.Built?
      && (x.Built? ==> GoodState(w, x.st) && BuiltAlike(w, x.images, m.images, BuiltStages(selected, n)))
  {
    hide Sound, Translates, StageDoes, Interchangeable, Stages.StagesOk, Selects, IdsAlike, Reserved, Coherent, Engine,
         Reference, Stages.ApplyStage;
    Stages.ApplyShape(Engine(w, op), stages, selected, Some(s), n);
    Stages.ApplyShape(Reference(w, op), stages, selected, None, n);
    if n > 0 {
      BuildMeans(w, op, stages, selected, s, n - 1);
      Stages.ApplyShape(Engine(w, op), stages, selected, Some(s), n - 1);
      Stages.ApplyShape(Reference(w, op), stages, selected, None, n - 1);
      var x := Stages.ApplyAll(Engine(w, op), stages, selected, Some(s), n - 1);
      var m := Stages.ApplyAll(Reference(w, op), stages, selected, None, n - 1);
      if x.Built? && (selected.Some? ==> n - 1 in selected.value) {
        StageAdds(w, op, stages, selected, x, m, n - 1);
      }
    }
  }

  lemma StageAdds(w: World, op: Stages.Call -> Op, stages: seq<Stages.Stage>, selected: Option<set<nat>>,
                  x: Stages.Build<State>, m: Stages.Build<Option<Image>>, i: nat)
    requires Sound(w) && Interchangeable(w) && Reserved(w) && Translates(op)
    requires Stages.StagesOk(stages) && Selects(stages, selected)
    requires i < |stages| && (selected.Some? ==> i in selected.value)
    requires x.Built? && m.Built? && GoodState(w, x.st) && BuiltAlike(w, x.images, m.images, BuiltStages(selected, i))
    requires |x.images| == |x.calls| == |m.images| == |m.calls| == |stages|
    requires StageDoes(w, op, IsClean(w), stages[i].ops, x.images, x.st)
    ensures var y := Stages.ApplyStage(Engine(w, op), stages[i], x, i);
      var n := Stages.ApplyStage(Reference(w, op), stages[i], m, i);
      && y.Built? == n.Built?
      && (y.Built? ==> GoodState(w, y.st) && BuiltAlike(w, y.images, n.images, BuiltStages(selected, i + 1)))
  {
    hide Coherent, Sound, Translates, StageDoes, Interchangeable, Stages.StagesOk, IdsAlike, Reserved, Stages.RunOps;
    ReadsBuilt(stages, selected, i);
    StageMeans(w, op, stages[i].ops, x.images, m.images, x.st, m.st);
    var r := Stages.RunOps(Engine(w, op), stages[i].ops, x.images, x.st);
    var q := Stages.RunOps(Reference(w, op), stages[i].ops, m.images, m.st);
    if r.Ran? { GoodAlike(w, r.st, q.st); }
  }

  lemma GoodAlike(w: World, st: Option<State>, i: Option<Option<Image>>)
    requires Reserved(w) && StatesAlike(w, st, i)
    ensures IdsAlike(w, ImageId(st.value.image), ImageId(i.value))
  {
    hide Reserved, IdsAlike, Alike, Known, CacheOk, KeptOk;
    ImagesAlike(w, st.value.image, i.value);
  }

  lemma ReadsBuilt(stages: seq<Stages.Stage>, selected: Option<set<nat>>, i: nat)
    requires Stages.StagesOk(stages) && Selects(stages, selected)
    requires i < |stages| && (selected.Some? ==> i in selected.value)
    ensures stages[i].ops != [] && (stages[i].ops[0].FromImage? || stages[i].ops[0].FromStage?)
    ensures Stages.Refs(stages[i].ops) <= BuiltStages(selected, i)
  {
    assert Stages.StageOk(stages, i);
  }

  lemma IdsTransitive(w: World, x: string, y: string, z: string)
    requires IdsAlike(w, x, y) && IdsAlike(w, z, y)
    ensures IdsAlike(w, x, z)
  {
  }

  /** Stage slicing with the builder as it is: if the whole Dockerfile builds, then so does
      a complete selection, even on another cache and after other builds, and every
      selected stage gets an image that counts as the same, if both builds are clean. */
  lemma SliceAlike(w: World, op: Stages.Call -> Op, stages: seq<Stages.Stage>, selected: set<nat>, s: State, s': State)
    requires Sound(w) && Interchangeable(w) && Reserved(w) && Translates(op) && Coherent(w, s) && Coherent(w, s')
    requires Stages.StagesOk(stages) && Stages.Complete(stages, selected)
    requires BuildDoes(w, op, IsClean(w), stages, None, s, |stages|)
    requires BuildDoes(w, op, IsClean(w), stages, Some(selected), s', |stages|)
    requires Stages.ApplyAll(Engine(w, op), stages, None, Some(s), |stages|).Built?
    ensures var x := Stages.ApplyAll(Engine(w, op), stages, None, Some(s), |stages|);
      var y := Stages.ApplyAll(Engine(w, op), stages, Some(selected), Some(s'), |stages|);
      y.Built? && BuiltAlike(w, x.images, y.images, selected)
  {
    hide Coherent, Sound, Translates, Interchangeable, Stages.StagesOk, IdsAlike, Reserved, Stages.ApplyAll, BuildDoes;
    var n := |stages|;
    BuildMeans(w, op, stages, None, s, n);
    BuildMeans(w, op, stages, Some(selected), s', n);
    Stages.SliceAgrees(Reference(w, op), stages, selected, None, n);
    var x := Stages.ApplyAll(Engine(w, op), stages, None, Some(s), n);
    var y := Stages.ApplyAll(Engine(w, op), stages, Some(selected), Some(s'), n);
    var m := Stages.ApplyAll(Reference(w, op), stages, None, None, n);
    var q := Stages.ApplyAll(Reference(w, op), stages, Some(selected), None, n);
    Stages.ApplyShape(Engine(w, op), stages, None, Some(s), n);
    forall i | i in selected && i < |x.images|
      ensures IdsAlike(w, x.images[i], y.images[i])
    {
      assert i in BuiltStages(None, n) && i in BuiltStages(Some(selected), n);
      assert m.images[i] == q.images[i];
      IdsTransitive(w, x.images[i], m.images[i], y.images[i]);
    }
  }

  // ------------------------------------------------------------- what counts of an image

  lemma ExactInterchanges(w: World)
    requires WorldOk(w) && Exact(w)
    ensures Interchangeable(w)
  {
    forall i, o, o' | Known(w, i) && OpsAlike(w, o, o')
      ensures SameOutcome(w, Meaning(w, i, o), Meaning(w, i, o'))
    {
      ExactOps(w, o, o');
      Outcomes(w, Meaning(w, i, o), Meaning(w, i, o), Meaning(w, i, o));
    }
  }

  lemma ExactOps(w: World, o: Op, o': Op)
    requires WorldOk(w) && Exact(w) && OpsAlike(w, o, o')
    ensures o == o'
  {
    hide WorldOk, Exact;
    if o.From? && o'.From? && IdsAlike(w, o.name, o'.name) { ExactIds(w, o.name, o'.name); }
    if o.CopyFrom? && o'.CopyFrom? && IdsAlike(w, o.source, o'.source) { ExactIds(w, o.source, o'.source); }
  }

  /** If whole images count, the selected stages have the same image IDs. */
  lemma SliceBuilds(w: World, op: Stages.Call -> Op, stages: seq<Stages.Stage>, selected: set<nat>, s: State, s': State)
    requires WorldOk(w) && Keyed(w) && Exact(w) && Reserved(w) && Translates(op) && Coherent(w, s) && Coherent(w, s')
    requires Stages.StagesOk(stages) && Stages.Complete(stages, selected)
    requires BuildDoes(w, op, IsClean(w), stages, None, s, |stages|)
    requires BuildDoes(w, op, IsClean(w), stages, Some(selected), s', |stages|)
    requires Stages.ApplyAll(Engine(w, op), stages, None, Some(s), |stages|).Built?
    ensures var x := Stages.ApplyAll(Engine(w, op), stages, None, Some(s), |stages|);
      var y := Stages.ApplyAll(Engine(w, op), stages, Some(selected), Some(s'), |stages|);
      && y.Built? && |x.images| == |y.images|
      && forall i :: i in selected && i < |x.images| ==> x.images[i] == y.images[i]
  {
    hide Coherent, Keyed, Translates, Stages.StagesOk, Stages.Complete, Stages.ApplyAll, BuildDoes, Respects,
         Interchangeable;
    ExactRespects(w);
    ExactInterchanges(w);
    SliceAlike(w, op, stages, selected, s, s');
    var x := Stages.ApplyAll(Engine(w, op), stages, None, Some(s), |stages|);
    var y := Stages.ApplyAll(Engine(w, op), stages, Some(selected), Some(s'), |stages|);
    forall i | i in selected && i < |x.images|
      ensures x.images[i] == y.images[i]
    {
      ExactIds(w, x.images[i], y.images[i]);
    }
  }

  lemma ExactIds(w: World, x: string, y: string)
    requires WorldOk(w) && Exact(w) && IdsAlike(w, x, y)
    ensures x == y
  {
    assert Known(w, w.resolve(x)) && Known(w, w.resolve(y));
  }

  lemma IgnoringInterchanges(w: World, core: Config -> string)
    requires IgnoresHistory(w, core)
    ensures Interchangeable(w)
  {
    forall i, o, o' | Known(w, i) && OpsAlike(w, o, o')
      ensures SameOutcome(w, Meaning(w, i, o), Meaning(w, i, o'))
    {
      IgnoringSource(w, core, i, o, o');
    }
  }

  lemma IgnoringSource(w: World, core: Config -> string, i: Option<Image>, o: Op, o': Op)
    requires IgnoresHistory(w, core) && OpsAlike(w, o, o')
    ensures SameOutcome(w, Meaning(w, i, o), Meaning(w, i, o'))
  {
    if o != o' && o.CopyFrom? && w.resolve(o.source).Some? && w.resolve(o'.source).Some? {
      var a, b := w.resolve(o.source).value, w.resolve(o'.source).value;
      assert a.fs == b.fs && SameParents(w, core, i, i);
      hide IgnoresHistory;
      var f := Placed(w, i, Rootfs(a.fs), o.files, o.user);
      hide Placed;
      if f.Some? {
        LayersAlike(w, core, f.value, i, i, w.copyKey(a.id, o.files, o.user, ConfigOf(w, i)),
                    w.copyKey(b.id, o.files, o.user, ConfigOf(w, i)));
      }
    }
  }

  /** Every copy from an image names some files. */
  ghost predicate NamesFiles(op: Stages.Call -> Op) {
    forall c :: op(c).CopyFrom? ==> op(c).files != []
  }

  lemma {:induction false} StageIsClean(w: World, core: Config -> string, op: Stages.Call -> Op, ops: seq<Stages.Op>,
                                        built: seq<string>, st: Option<State>)
    requires IgnoresHistory(w, core) && NamesFiles(op) && StageDoes(w, op, Follows(w), ops, built, st)
    ensures StageDoes(w, op, IsClean(w), ops, built, st)
    decreases |ops|
  {
    hide IgnoresHistory, LeavesBundleBehind, MakesOtherLayer, Stages.RunOps;
    if ops != [] {
      var n := |ops| - 1;
      StageIsClean(w, core, op, ops[..n], built, st);
      var r, c := Stages.RunOps(Engine(w, op), ops[..n], built, st), Stages.Resolve(ops[n], built);
      if r.Ran? && r.st.Some? && c.Some? { KeptMakesSameLayer(w, core, r.st.value, op(c.value)); }
    }
  }

  lemma {:induction false} BuildIsClean(w: World, core: Config -> string, op: Stages.Call -> Op,
                                        stages: seq<Stages.Stage>, selected: Option<set<nat>>, s: State, n: nat)
    requires IgnoresHistory(w, core) && NamesFiles(op) && n <= |stages|
    requires BuildDoes(w, op, Follows(w), stages, selected, s, n)
    ensures BuildDoes(w, op, IsClean(w), stages, selected, s, n)
  {
    hide IgnoresHistory, NamesFiles, StageDoes;
    if n > 0 {
      BuildIsClean(w, core, op, stages, selected, s, n - 1);
      var r := Stages.ApplyAll(Engine(w, op), stages, selected, Some(s), n - 1);
      if r.Built? && (selected.Some? ==> n - 1 in selected.value) {
        StageIsClean(w, core, op, stages[n - 1].ops, r.images, r.st);
      }
    }
  }

  /** If the history does not count, every selected stage gets the file system and the
      config of the whole build, whatever is copied from whatever was kept, if no bundle is
      left behind. */
  lemma SliceSameFiles(w: World, core: Config -> string, op: Stages.Call -> Op, stages: seq<Stages.Stage>,
                       selected: set<nat>, s: State, s': State)
    requires WorldOk(w) && Keyed(w) && IgnoresHistory(w, core) && Reserved(w) && Translates(op) && NamesFiles(op)
    requires Coherent(w, s) && Coherent(w, s') && Stages.StagesOk(stages) && Stages.Complete(stages, selected)
    requires BuildDoes(w, op, Follows(w), stages, None, s, |stages|)
    requires BuildDoes(w, op, Follows(w), stages, Some(selected), s', |stages|)
    requires Stages.ApplyAll(Engine(w, op), stages, None, Some(s), |stages|).Built?
    ensures var x := Stages.ApplyAll(Engine(w, op), stages, None, Some(s), |stages|);
      var y := Stages.ApplyAll(Engine(w, op), stages, Some(selected), Some(s'), |stages|);
      y.Built? && BuiltAlike(w, x.images, y.images, selected)
  {
    hide Coherent, WorldOk, Keyed, Translates, Stages.StagesOk, Stages.Complete, Stages.ApplyAll, BuildDoes, Respects,
         Interchangeable, IgnoresHistory, NamesFiles, BuiltAlike;
    IgnoringRespects(w, core);
    IgnoringInterchanges(w, core);
    BuildIsClean(w, core, op, stages, None, s, |stages|);
    BuildIsClean(w, core, op, stages, Some(selected), s', |stages|);
    SliceAlike(w, op, stages, selected, s, s');
  }
}
