/** The image builder and its cache: builds that reuse cached images, an open bundle, a
    file system builder and root file systems that were left behind, against builds that
    compute every image from its parent. */
module ImageBuild {
  import opened Options

  type Id = string
  type Key = string

  /** Configs and file systems, as encoded: only the functions of World look inside. */
  type Config = string
  type Fs = string

  datatype Image = Image(id: Id, config: Config, fs: Fs)

  /** Where files are copied from: the build context or the root file system of an image. */
  datatype Origin = Context(dir: string) | Rootfs(fs: Fs)

  datatype Op =
    | From(name: string)
    | Configure(change: string)
    | SetUser(user: string)
    | Run(args: string)
    | AddFiles(origin: Origin, files: seq<string>, user: string)
    | CopyFrom(source: string, files: seq<string>, user: string)

  /** What the builder calls, deterministic. `image` is the image that an ID stands for,
      `view` is what counts of an image when two builds are compared. */
  datatype World = World(
    initial: Config,
    empty: Fs,
    image: Id -> Image,
    view: Image -> string,
    resolve: string -> Option<Image>,
    edit: (Config, string) -> Config,
    editKey: (Config, string) -> Key,
    withUser: (Config, string) -> Config,
    userKey: string -> Key,
    runKey: string -> Key,
    filesKey: (string, Fs) -> Key,
    copyKey: (Id, seq<string>, string, Config) -> Key,
    note: (Config, Key) -> Config,
    commit: (Config, Option<Image>) -> Option<Image>,
    layer: (Fs, Option<Image>, Config, Key) -> Option<Image>,
    exec: (Fs, Config, string) -> Option<Fs>,
    numeric: string -> Option<nat>,
    lookup: (string, Fs) -> Option<nat>,
    place: (Fs, Origin, seq<string>, Config, nat) -> Option<Fs>,
    overwrite: (Fs, Fs) -> Fs)

  datatype Kept = Kept(fs: Fs, image: Image)

  /** The fields of the builder, the build cache and the IDs of the stored images.
      `bundle` is the root file system of the open bundle, `kept` the root file systems
      that were left behind under a name. */
  datatype State = State(
    image: Option<Image>,
    config: Config,
    bundle: Option<Fs>,
    fsBuilder: Option<Fs>,
    kept: map<string, Kept>,
    cache: map<(Option<Id>, Key), Id>,
    stored: set<Id>)

  function IdOf(i: Option<Image>): Option<Id> {
    if i.Some? then Some(i.value.id) else None
  }

  function ConfigOf(w: World, i: Option<Image>): Config {
    if i.Some? then i.value.config else w.initial
  }

  function FsOf(w: World, i: Option<Image>): Fs {
    if i.Some? then i.value.fs else w.empty
  }

  // ---------------------------------------------------------------- the builder

  function SetImage(w: World, s: State, i: Option<Image>): State {
    s.(image := i, config := ConfigOf(w, i))
  }

  /** initBundle. */
  function Open(w: World, s: State): State {
    if s.bundle.Some? then s else s.(bundle := Some(FsOf(w, s.image)))
  }

  /** resolveUser: a name is looked up in the bundle, which is opened for it. */
  function ResolveUser(w: World, s: State, user: string): Option<(State, nat)> {
    if w.numeric(user).Some? then Some((s, w.numeric(user).value))
    else if s.bundle.None? && s.image.None? then None
    else
      var t := Open(w, s);
      var ids := w.lookup(user, t.bundle.value);
      if ids.Some? then Some((t, ids.value)) else None
  }

  function CommitConfig(w: World, s: State, key: Key): Option<State> {
    match w.commit(w.note(s.config, key), s.image)
    case None => None
    case Some(i) => Some(SetImage(w, s.(stored := s.stored + {i.id}), Some(i)))
  }

  function AddLayer(w: World, s: State, f: Fs, key: Key): Option<State> {
    match w.layer(f, s.image, s.config, key)
    case None => None
    case Some(i) => Some(SetImage(w, s.(stored := s.stored + {i.id}, fsBuilder := Some(f)), Some(i)))
  }

  /** addLayerAndUpdateBundleFS. */
  function AddLayerToBundle(w: World, s: State, f: Fs, key: Key): Option<State> {
    AddLayer(w, if s.bundle.Some? then s.(bundle := Some(w.overwrite(s.bundle.value, f))) else s, f, key)
  }

  /** The file system that files are added to. */
  function BaseFs(w: World, s: State): Fs {
    if s.fsBuilder.Some? then s.fsBuilder.value else FsOf(w, s.image)
  }

  /** Resolves the user and copies the files into the file system builder. */
  function PlaceFiles(w: World, s: State, origin: Origin, files: seq<string>, user: string): Option<State> {
    match ResolveUser(w, s, user)
    case None => None
    case Some(r) =>
      match w.place(BaseFs(w, r.0), origin, files, r.0.config, r.1)
      case None => None
      case Some(f) => Some(r.0.(fsBuilder := Some(f)))
  }

  predicate Hit(s: State, key: Key) {
    (IdOf(s.image), key) in s.cache && s.cache[(IdOf(s.image), key)] in s.stored
  }

  /** cached: the image found, or what the call makes, which is then remembered. */
  function Cached(w: World, s: State, key: Key, call: State -> Option<State>): Option<State> {
    if Hit(s, key) then
      Some(SetImage(w, s.(fsBuilder := None), Some(w.image(s.cache[(IdOf(s.image), key)]))))
    else
      match call(s)
      case None => None
      case Some(t) =>
        if t.image.None? then None
        else Some(t.(cache := t.cache[(IdOf(s.image), key) := t.image.value.id]))
  }

  function DoFiles(w: World, s: State, origin: Origin, files: seq<string>, user: string): Option<State> {
    if files == [] then Some(s)
    else
      match PlaceFiles(w, s, origin, files, user)
      case None => None
      case Some(t) =>
        var f := t.fsBuilder.value;
        var key := w.filesKey(user, f);
        Cached(w, t, key, u => AddLayerToBundle(w, u, f, key))
  }

  function DoFrom(w: World, s: State, name: string): Option<State> {
    if name == "" then None
    else
      var kept := if s.bundle.Some? && s.image.Some?
                  then s.kept[s.image.value.id := Kept(s.bundle.value, s.image.value)] else s.kept;
      var t := s.(bundle := None, fsBuilder := None, kept := kept);
      if name == "scratch" then Some(SetImage(w, t, None))
      else
        match w.resolve(name)
        case None => None
        case Some(i) => Some(SetImage(w, t, Some(i)))
  }

  function UserCall(w: World, s: State, user: string, key: Key): Option<State> {
    match ResolveUser(w, s, user)
    case None => None
    case Some(r) => CommitConfig(w, r.0, key)
  }

  function RunCall(w: World, s: State, args: string, key: Key): Option<State> {
    var t := Open(w, s);
    match w.exec(t.bundle.value, t.config, args)
    case None => None
    case Some(f) => AddLayer(w, t.(bundle := Some(f)), f, key)
  }

  /** The image was unpacked and can be copied from again. */
  function Unpacked(s: State, name: string, i: Image): State {
    s.(kept := s.kept[name := Kept(i.fs, i)][i.id := Kept(i.fs, i)])
  }

  function CopyCall(w: World, s: State, i: Image, op: Op, key: Key): Option<State>
    requires op.CopyFrom?
  {
    match PlaceFiles(w, Unpacked(s, op.source, i), Rootfs(i.fs), op.files, op.user)
    case None => None
    case Some(u) => AddLayerToBundle(w, u, u.fsBuilder.value, key)
  }

  function DoCopy(w: World, s: State, op: Op): Option<State>
    requires op.CopyFrom?
  {
    if op.source in s.kept then
      var k := s.kept[op.source];
      var key := w.copyKey(k.image.id, op.files, op.user, s.config);
      Cached(w, s, key, t => DoFiles(w, t, Rootfs(k.fs), op.files, op.user))
    else
      match w.resolve(op.source)
      case None => None
      case Some(i) =>
        var key := w.copyKey(i.id, op.files, op.user, s.config);
        Cached(w, s, key, t => CopyCall(w, t, i, op, key))
  }

  /** One operation of the builder; nothing when it fails. */
  function Do(w: World, s: State, op: Op): Option<State> {
    match op
    case From(name) => DoFrom(w, s, name)
    case Configure(change) =>
      var t := s.(config := w.edit(s.config, change));
      var key := w.editKey(t.config, change);
      Cached(w, t, key, u => CommitConfig(w, u, key))
    case SetUser(user) =>
      var t := s.(config := w.withUser(s.config, user));
      var key := w.userKey(user);
      Cached(w, t, key, u => UserCall(w, u, user, key))
    case Run(args) =>
      var key := w.runKey(args);
      if s.image.None? then None else Cached(w, s, key, u => RunCall(w, u, args, key))
    case AddFiles(origin, files, user) => DoFiles(w, s, origin, files, user)
    case CopyFrom(_, _, _) => DoCopy(w, s, op)
  }

  // ------------------------------------------------------------------ the meaning

  /** The user ID in an image. */
  function UserIn(w: World, i: Option<Image>, user: string): Option<nat> {
    if w.numeric(user).Some? then w.numeric(user)
    else if i.None? then None
    else w.lookup(user, i.value.fs)
  }

  /** The file system with the files placed into that of the image. */
  function Placed(w: World, i: Option<Image>, origin: Origin, files: seq<string>, user: string): Option<Fs> {
    match UserIn(w, i, user)
    case None => None
    case Some(id) =>
      if i.Some? then w.place(i.value.fs, origin, files, i.value.config, id)
      else w.place(w.empty, origin, files, w.initial, id)
  }

  /** The cache key of an operation on an image, or nothing if it is not cached. */
  function KeyOf(w: World, i: Option<Image>, op: Op): Option<Key> {
    var config := if i.Some? then i.value.config else w.initial;
    match op
    case From(_) => None
    case Configure(change) => Some(w.editKey(w.edit(config, change), change))
    case SetUser(user) => Some(w.userKey(user))
    case Run(args) => if i.None? then None else Some(w.runKey(args))
    case AddFiles(origin, files, user) =>
      (match Placed(w, i, origin, files, user)
       case None => None
       case Some(f) => if files == [] then None else Some(w.filesKey(user, f)))
    case CopyFrom(source, files, user) =>
      match w.resolve(source)
      case None => None
      case Some(src) => Some(w.copyKey(src.id, files, user, config))
  }

  /** The image that the operation makes of its parent, computed from the parent alone. */
  function Meaning(w: World, i: Option<Image>, op: Op): Option<Option<Image>> {
    var config := if i.Some? then i.value.config else w.initial;
    match op
    case From(name) =>
      if name == "" then None
      else if name == "scratch" then Some(None)
      else Lift(w.resolve(name))
    case Configure(change) =>
      var c := w.edit(config, change);
      Lift(w.commit(w.note(c, w.editKey(c, change)), i))
    case SetUser(user) =>
      if UserIn(w, i, user).None? then None
      else Lift(w.commit(w.note(w.withUser(config, user), w.userKey(user)), i))
    case Run(args) =>
      if i.None? then None
      else
        (match w.exec(i.value.fs, config, args)
         case None => None
         case Some(f) => Lift(w.layer(f, i, config, w.runKey(args))))
    case AddFiles(origin, files, user) =>
      if files == [] then Some(i)
      else
        (match Placed(w, i, origin, files, user)
         case None => None
         case Some(f) => Lift(w.layer(f, i, config, w.filesKey(user, f))))
    case CopyFrom(source, files, user) =>
      match w.resolve(source)
      case None => None
      case Some(src) =>
        match Placed(w, i, Rootfs(src.fs), files, user)
        case None => None
        case Some(f) => Lift(w.layer(f, i, config, w.copyKey(src.id, files, user, config)))
  }

  function Lift<T>(x: Option<T>): Option<Option<T>> {
    if x.Some? then Some(x) else None
  }

  function MeaningAll(w: World, i: Option<Image>, ops: seq<Op>): Option<Option<Image>>
    decreases |ops|
  {
    if ops == [] then Some(i)
    else
      var before := MeaningAll(w, i, ops[..|ops| - 1]);
      if before.None? then None else Meaning(w, before.value, ops[|ops| - 1])
  }

  // -------------------------------------------------------------------- agreement

  /** The image is the one its ID and its name stand for. */
  ghost predicate Known(w: World, i: Option<Image>) {
    i.Some? ==> w.image(i.value.id) == i.value && w.resolve(i.value.id) == i
  }

  ghost predicate Committed(w: World, i: Image, f: Fs) {
    i.fs == f && Known(w, Some(i))
  }

  /** Images are named by their digests, a commit adds no layer, a layer makes the file
      system it was made of, and writing a file system over the one it was derived from
      gives that file system. */
  ghost predicate WorldOk(w: World) {
    && (forall c, p :: w.commit(c, p).Some? ==>
         Committed(w, w.commit(c, p).value, if p.Some? then p.value.fs else w.empty))
    && (forall f, p, c, k :: w.layer(f, p, c, k).Some? ==> Committed(w, w.layer(f, p, c, k).value, f))
    && (forall n :: Known(w, w.resolve(n)))
    && (forall b, o, fs, c, u :: w.place(b, o, fs, c, u).Some? ==>
         w.overwrite(b, w.place(b, o, fs, c, u).value) == w.place(b, o, fs, c, u).value)
  }

  predicate Alike(w: World, i: Option<Image>, j: Option<Image>) {
    if i.Some? && j.Some? then w.view(i.value) == w.view(j.value) else i == j
  }

  predicate SameOutcome(w: World, m: Option<Option<Image>>, n: Option<Option<Image>>) {
    if m.Some? && n.Some? then Alike(w, m.value, n.value) else m == n
  }

  /** What counts of the image that an operation makes depends on what counts of its
      parent. This is so if images that look alike are equal. */
  ghost predicate Respects(w: World) {
    forall i, j, op :: Known(w, i) && Known(w, j) && Alike(w, i, j) ==>
      SameOutcome(w, Meaning(w, i, op), Meaning(w, j, op))
  }

  /** Operations with equal keys make the same of an image. */
  ghost predicate Keyed(w: World) {
    forall i, o, o' :: Known(w, i) && KeyOf(w, i, o).Some? && KeyOf(w, i, o) == KeyOf(w, i, o') ==>
      SameOutcome(w, Meaning(w, i, o), Meaning(w, i, o'))
  }

  ghost predicate Sound(w: World) {
    WorldOk(w) && Respects(w) && Keyed(w)
  }

  function Named(w: World, p: Option<Id>): Option<Image> {
    if p.Some? then Some(w.image(p.value)) else None
  }

  /** The entry was put by an operation with this key on this parent. */
  ghost predicate Earned(w: World, p: Option<Id>, key: Key, id: Id) {
    && w.image(id).id == id && Known(w, Some(w.image(id)))
    && exists op :: KeyOf(w, Named(w, p), op) == Some(key)
         && SameOutcome(w, Meaning(w, Named(w, p), op), Some(Some(w.image(id))))
  }

  ghost predicate CacheOk(w: World, cache: map<(Option<Id>, Key), Id>) {
    forall p, key :: (p, key) in cache ==> Earned(w, p, key, cache[(p, key)])
  }

  /** A root file system that was left behind is that of the image its name stands for. */
  ghost predicate KeptOk(w: World, kept: map<string, Kept>) {
    forall n :: n in kept ==> w.resolve(n) == Some(kept[n].image) && kept[n].fs == kept[n].image.fs
  }

  /** Config, bundle and file system builder are those of the image. */
  ghost predicate Fresh(w: World, s: State) {
    && Known(w, s.image)
    && s.config == (if s.image.Some? then s.image.value.config else w.initial)
    && (s.bundle.Some? ==> s.image.Some? && s.bundle.value == s.image.value.fs)
    && (s.fsBuilder.Some? ==> s.fsBuilder.value == if s.image.Some? then s.image.value.fs else w.empty)
  }

  ghost predicate Coherent(w: World, s: State) {
    Fresh(w, s) && CacheOk(w, s.cache) && KeptOk(w, s.kept)
  }

  /** The outcome of an operation against a meaning. */
  ghost predicate Agrees(w: World, r: Option<State>, m: Option<Option<Image>>) {
    if r.Some? then SameOutcome(w, m, Some(r.value.image)) && Coherent(w, r.value) else m == None
  }

  function Found(w: World, s: State, key: Key): Image
    requires Hit(s, key)
  {
    w.image(s.cache[(IdOf(s.image), key)])
  }

  predicate HitsKey(w: World, s: State, op: Op) {
    KeyOf(w, s.image, op).Some? && Hit(s, KeyOf(w, s.image, op).value)
  }

  /** Whether a bundle is open when the operation looks into the cache. */
  predicate OpenAt(w: World, s: State, op: Op) {
    s.bundle.Some? || (op.AddFiles? && w.numeric(op.user).None?)
  }

  /** The operation finds an image with another file system while a bundle is open. */
  predicate FindsOther(w: World, s: State, op: Op) {
    HitsKey(w, s, op) && OpenAt(w, s, op) && Found(w, s, KeyOf(w, s.image, op).value).fs != FsOf(w, s.image)
  }

  /** The operation is a copy from a root file system that was left behind, and not cached. */
  predicate CopiesKept(w: World, s: State, op: Op) {
    op.CopyFrom? && op.source in s.kept && !HitsKey(w, s, op)
  }

  /** What a copy from a root file system that was left behind does instead. */
  function AsFiles(s: State, op: Op): Op
    requires op.CopyFrom? && op.source in s.kept
  {
    AddFiles(Rootfs(s.kept[op.source].fs), op.files, op.user)
  }

  /** The operation, or the addition of files that it does instead, finds an image with
      another file system while a bundle is open. */
  predicate LeavesBundleBehind(w: World, s: State, op: Op) {
    FindsOther(w, s, op) || (CopiesKept(w, s, op) && FindsOther(w, s, AsFiles(s, op)))
  }

  /** The image made of a root file system that was left behind. */
  function KeptMeaning(w: World, i: Option<Image>, src: Image, op: Op): Option<Option<Image>>
    requires op.CopyFrom?
  {
    if op.files == [] && i.None? then None else Meaning(w, i, AddFiles(Rootfs(src.fs), op.files, op.user))
  }

  /** The layer made under the key of the files is another one than the layer made under
      the key of the copy. */
  predicate OtherLayer(w: World, i: Option<Image>, src: Image, op: Op)
    requires op.CopyFrom?
  {
    match Placed(w, i, Rootfs(src.fs), op.files, op.user)
    case None => op.files == [] && i.Some?
    case Some(f) =>
      var made := w.layer(f, i, ConfigOf(w, i), w.copyKey(src.id, op.files, op.user, ConfigOf(w, i)));
      if op.files == [] then !Alike(w, i, made)
      else !Alike(w, w.layer(f, i, ConfigOf(w, i), w.filesKey(op.user, f)), made)
  }

  predicate MakesOtherLayer(w: World, s: State, op: Op) {
    CopiesKept(w, s, op) && OtherLayer(w, s.image, s.kept[op.source].image, op)
  }

  predicate Clean(w: World, s: State, op: Op) {
    !LeavesBundleBehind(w, s, op) && !MakesOtherLayer(w, s, op)
  }

  /** The image of the kept root file system counts as the one that was meant if and only
      if the two layers do. */
  lemma KeptMeans(w: World, i: Option<Image>, src: Image, op: Op)
    requires op.CopyFrom? && w.resolve(op.source) == Some(src)
    ensures SameOutcome(w, KeptMeaning(w, i, src, op), Meaning(w, i, op)) <==> !OtherLayer(w, i, src, op)
  {
  }

  // ------------------------------------------------------- what an operation makes

  /** The outcome makes this image and remembers only what was earned. */
  ghost predicate Makes(w: World, r: Option<State>, m: Option<Option<Image>>) {
    if r.Some? then SameOutcome(w, m, Some(r.value.image)) && Known(w, r.value.image) && CacheOk(w, r.value.cache)
    else m == None
  }

  lemma Outcomes(w: World, l: Option<Option<Image>>, m: Option<Option<Image>>, n: Option<Option<Image>>)
    ensures SameOutcome(w, m, m) && (SameOutcome(w, m, n) ==> SameOutcome(w, n, m))
    ensures SameOutcome(w, l, m) && SameOutcome(w, m, n) ==> SameOutcome(w, l, n)
  {
  }

  /** The outcome has this very image, with its config, bundle and file system builder. */
  ghost predicate Exactly(w: World, r: Option<State>, m: Option<Option<Image>>, kept: map<string, Kept>) {
    if r.Some? then m == Some(r.value.image) && Fresh(w, r.value) && CacheOk(w, r.value.cache) && r.value.kept == kept
    else m == None
  }

  /** The outcome of an operation: its image is the one meant, and it has the bundle of its
      image unless a bundle was left behind. */
  ghost predicate Steps(w: World, s: State, op: Op, r: Option<State>) {
    && Makes(w, r, Meaning(w, s.image, op))
    && (r.Some? ==> KeptOk(w, r.value.kept) && (Fresh(w, r.value) <==> !FindsOther(w, s, op)))
  }

  /** `s` is the state at the look into the cache. */
  lemma CachedSteps(w: World, s: State, op: Op, key: Key, call: State -> Option<State>, kept: map<string, Kept>)
    requires Keyed(w) && Known(w, s.image) && CacheOk(w, s.cache) && KeptOk(w, s.kept) && KeptOk(w, kept)
    requires s.bundle.Some? ==> s.image.Some? && s.bundle.value == FsOf(w, s.image)
    requires KeyOf(w, s.image, op) == Some(key)
    requires !Hit(s, key) ==> Exactly(w, call(s), Meaning(w, s.image, op), kept)
    requires Meaning(w, s.image, op).Some? ==> Meaning(w, s.image, op).value.Some?
    ensures var r := Cached(w, s, key, call);
      && Makes(w, r, Meaning(w, s.image, op))
      && (r.Some? ==> KeptOk(w, r.value.kept))
      && (r.Some? ==>
           (Fresh(w, r.value) <==> !(Hit(s, key) && s.bundle.Some? && Found(w, s, key).fs != FsOf(w, s.image))))
  {
    hide KeyOf, Meaning, KeptOk;
    var p := IdOf(s.image);
    assert Named(w, p) == s.image;
    if Hit(s, key) {
      assert Earned(w, p, key, s.cache[(p, key)]);
      HitMakes(w, s, op, key);
    } else if call(s).Some? {
      var t := call(s).value;
      var r := Cached(w, s, key, call).value;
      CacheAdds(w, t.cache, p, key, t.image.value, op);
      assert Fresh(w, r) <==> Fresh(w, t);
    }
  }

  lemma HitMakes(w: World, s: State, op: Op, key: Key)
    requires Keyed(w) && Known(w, s.image) && KeyOf(w, s.image, op) == Some(key)
    requires Hit(s, key) && Earned(w, IdOf(s.image), key, s.cache[(IdOf(s.image), key)])
    ensures SameOutcome(w, Meaning(w, s.image, op), Some(Some(Found(w, s, key))))
  {
    hide KeyOf, Meaning;
    assert Named(w, IdOf(s.image)) == s.image;
    var id := s.cache[(IdOf(s.image), key)];
    var o :| KeyOf(w, s.image, o) == Some(key) && SameOutcome(w, Meaning(w, s.image, o), Some(Some(w.image(id))));
    assert SameOutcome(w, Meaning(w, s.image, op), Meaning(w, s.image, o));
  }

  lemma CacheAdds(w: World, cache: map<(Option<Id>, Key), Id>, p: Option<Id>, key: Key, i: Image, op: Op)
    requires CacheOk(w, cache) && Known(w, Some(i))
    requires KeyOf(w, Named(w, p), op) == Some(key) && SameOutcome(w, Meaning(w, Named(w, p), op), Some(Some(i)))
    ensures CacheOk(w, cache[(p, key) := i.id])
  {
    hide KeyOf, Meaning;
    assert Earned(w, p, key, i.id);
  }

  lemma ResolveUserAgrees(w: World, s: State, user: string)
    requires Fresh(w, s.(config := ConfigOf(w, s.image)))
    ensures var r := ResolveUser(w, s, user);
      && (if r.Some? then UserIn(w, s.image, user) == Some(r.value.1) else UserIn(w, s.image, user).None?)
      && (r.Some? ==> r.value.0 == s.(bundle := r.value.0.bundle))
      && (r.Some? ==> (r.value.0.bundle.Some? <==> s.bundle.Some? || w.numeric(user).None?))
      && (r.Some? && r.value.0.bundle.Some? ==> s.image.Some? && r.value.0.bundle.value == FsOf(w, s.image))
  {
  }

  lemma CommitExact(w: World, s: State, key: Key)
    requires WorldOk(w) && Fresh(w, s.(config := ConfigOf(w, s.image))) && CacheOk(w, s.cache)
    ensures Exactly(w, CommitConfig(w, s, key), Lift(w.commit(w.note(s.config, key), s.image)), s.kept)
  {
    var r := w.commit(w.note(s.config, key), s.image);
    if r.Some? { assert Committed(w, r.value, FsOf(w, s.image)); }
  }

  lemma AddLayerExact(w: World, s: State, f: Fs, key: Key)
    requires WorldOk(w) && CacheOk(w, s.cache) && (s.bundle.Some? ==> s.bundle.value == f)
    ensures Exactly(w, AddLayer(w, s, f, key), Lift(w.layer(f, s.image, s.config, key)), s.kept)
  {
    var r := w.layer(f, s.image, s.config, key);
    if r.Some? { assert Committed(w, r.value, f); }
  }

  /** After the files were placed: only the bundle and the file system builder changed. */
  ghost predicate FilesPlaced(w: World, s: State, t: State, f: Fs, user: string) {
    && t == s.(bundle := t.bundle, fsBuilder := Some(f))
    && (t.bundle.Some? <==> s.bundle.Some? || w.numeric(user).None?)
    && (t.bundle.Some? ==> s.image.Some? && t.bundle.value == FsOf(w, s.image) && w.overwrite(t.bundle.value, f) == f)
  }

  lemma PlaceFilesAgrees(w: World, s: State, origin: Origin, files: seq<string>, user: string)
    requires WorldOk(w) && Fresh(w, s)
    ensures var r := PlaceFiles(w, s, origin, files, user);
      var f := Placed(w, s.image, origin, files, user);
      if r.Some? then f.Some? && FilesPlaced(w, s, r.value, f.value, user) else f.None?
  {
    ResolveUserAgrees(w, s, user);
    var r := ResolveUser(w, s, user);
    if r.Some? {
      assert BaseFs(w, r.value.0) == FsOf(w, s.image);
    }
  }

  lemma FilesLayerExact(w: World, s: State, t: State, f: Fs, user: string, key: Key)
    requires WorldOk(w) && Fresh(w, s) && CacheOk(w, s.cache) && FilesPlaced(w, s, t, f, user)
    ensures Exactly(w, AddLayerToBundle(w, t, f, key), Lift(w.layer(f, s.image, ConfigOf(w, s.image), key)), s.kept)
  {
    hide WorldOk;
    var u := if t.bundle.Some? then t.(bundle := Some(w.overwrite(t.bundle.value, f))) else t;
    AddLayerExact(w, u, f, key);
  }

  lemma FilesSteps(w: World, s: State, op: Op)
    requires WorldOk(w) && Keyed(w) && Coherent(w, s) && op.AddFiles?
    ensures Steps(w, s, op, Do(w, s, op))
  {
    hide WorldOk, Keyed, CacheOk, KeptOk;
    if op.files != [] {
      PlaceFilesAgrees(w, s, op.origin, op.files, op.user);
      var r := PlaceFiles(w, s, op.origin, op.files, op.user);
      if r.Some? {
        var f := r.value.fsBuilder.value;
        var key := w.filesKey(op.user, f);
        FilesLayerExact(w, s, r.value, f, op.user, key);
        CachedSteps(w, r.value, op, key, u => AddLayerToBundle(w, u, f, key), s.kept);
      }
    }
  }

  /** The unpacked image is kept under the name and the ID that stand for it. */
  lemma UnpackedKept(w: World, s: State, name: string, i: Image)
    requires KeptOk(w, s.kept) && w.resolve(name) == Some(i) && Known(w, Some(i))
    ensures KeptOk(w, Unpacked(s, name, i).kept)
  {
  }

  /** A copy that is cached or unpacks its image. */
  lemma CopySteps(w: World, s: State, op: Op)
    requires WorldOk(w) && Keyed(w) && Coherent(w, s) && op.CopyFrom? && !CopiesKept(w, s, op)
    ensures Steps(w, s, op, Do(w, s, op))
  {
    var src := w.resolve(op.source);
    assert Known(w, src);
    assert op.source in s.kept ==> src == Some(s.kept[op.source].image);
    hide WorldOk, Keyed, CacheOk, KeptOk;
    if src.Some? {
      var i := src.value;
      var key := w.copyKey(i.id, op.files, op.user, s.config);
      var t := Unpacked(s, op.source, i);
      UnpackedKept(w, s, op.source, i);
      PlaceFilesAgrees(w, t, Rootfs(i.fs), op.files, op.user);
      var r := PlaceFiles(w, t, Rootfs(i.fs), op.files, op.user);
      if r.Some? { FilesLayerExact(w, t, r.value, r.value.fsBuilder.value, op.user, key); }
      CachedSteps(w, s, op, key, u => CopyCall(w, u, i, op, key), t.kept);
    }
  }

  lemma RunSteps(w: World, s: State, op: Op)
    requires WorldOk(w) && Keyed(w) && Coherent(w, s) && op.Run?
    ensures Steps(w, s, op, Do(w, s, op))
  {
    hide WorldOk, Keyed, CacheOk, KeptOk;
    if s.image.Some? {
      var key := w.runKey(op.args);
      var t := Open(w, s);
      var f := w.exec(t.bundle.value, t.config, op.args);
      if f.Some? { AddLayerExact(w, t.(bundle := f), f.value, key); }
      CachedSteps(w, s, op, key, u => RunCall(w, u, op.args, key), s.kept);
    }
  }

  lemma ConfigSteps(w: World, s: State, op: Op)
    requires WorldOk(w) && Keyed(w) && Coherent(w, s) && (op.Configure? || op.SetUser?)
    ensures Steps(w, s, op, Do(w, s, op))
  {
    hide WorldOk, Keyed, CacheOk, KeptOk;
    match op
    case Configure(change) =>
      var t := s.(config := w.edit(s.config, change));
      var key := w.editKey(t.config, change);
      CommitExact(w, t, key);
      CachedSteps(w, t, op, key, u => CommitConfig(w, u, key), s.kept);
    case SetUser(user) =>
      var t := s.(config := w.withUser(s.config, user));
      var key := w.userKey(user);
      ResolveUserAgrees(w, t, user);
      var r := ResolveUser(w, t, user);
      if r.Some? { CommitExact(w, r.value.0, key); }
      CachedSteps(w, t, op, key, u => UserCall(w, u, user, key), s.kept);
  }

  lemma FromSteps(w: World, s: State, op: Op)
    requires WorldOk(w) && Coherent(w, s) && op.From?
    ensures Steps(w, s, op, Do(w, s, op))
  {
    hide CacheOk;
    assert op.name != "scratch" ==> Known(w, w.resolve(op.name));
  }

  // -------------------------------------------------- copies from what was left behind

  /** The image is what the addition of files makes, and it is remembered as the copy. */
  lemma KeptCopy(w: World, s: State, op: Op)
    requires WorldOk(w) && Keyed(w) && Coherent(w, s) && CopiesKept(w, s, op)
    ensures var r := Do(w, s, op);
      var m := KeptMeaning(w, s.image, s.kept[op.source].image, op);
      && (if r.Some? then SameOutcome(w, m, Some(r.value.image)) else m == None)
      && (r.Some? ==> KeptOk(w, r.value.kept) && (Fresh(w, r.value) <==> !FindsOther(w, s, AsFiles(s, op))))
      && (r.Some? && SameOutcome(w, m, Meaning(w, s.image, op)) ==> CacheOk(w, r.value.cache))
  {
    hide Keyed, WorldOk, KeptOk, Meaning, CacheOk, FindsOther;
    var files := AsFiles(s, op);
    KeptIs(w, s, op.source);
    FilesSteps(w, s, files);
    FilesMean(w, s.image, files);
    var src := s.kept[op.source].image;
    var key := w.copyKey(src.id, op.files, op.user, s.config);
    var t := DoFiles(w, s, Rootfs(src.fs), op.files, op.user);
    if t.Some? && t.value.image.Some? {
      var m := KeptMeaning(w, s.image, src, op);
      if SameOutcome(w, m, Meaning(w, s.image, op)) {
        CacheAdds(w, t.value.cache, IdOf(s.image), key, t.value.image.value, op);
      }
    }
  }

  lemma KeptIs(w: World, s: State, name: string)
    requires KeptOk(w, s.kept) && name in s.kept
    ensures w.resolve(name) == Some(s.kept[name].image) && s.kept[name].fs == s.kept[name].image.fs
  {
  }

  lemma FilesMean(w: World, i: Option<Image>, op: Op)
    requires op.AddFiles?
    ensures op.files == [] ==> Meaning(w, i, op) == Some(i)
    ensures op.files != [] && Meaning(w, i, op).Some? ==> Meaning(w, i, op).value.Some?
  {
  }

  // ---------------------------------------------------------------- one operation

  lemma OtherSteps(w: World, s: State, op: Op)
    requires WorldOk(w) && Keyed(w) && Coherent(w, s) && !CopiesKept(w, s, op)
    ensures Steps(w, s, op, Do(w, s, op))
  {
    match op
    case From(_) => FromSteps(w, s, op);
    case Configure(_) => ConfigSteps(w, s, op);
    case SetUser(_) => ConfigSteps(w, s, op);
    case Run(_) => RunSteps(w, s, op);
    case AddFiles(_, _, _) => FilesSteps(w, s, op);
    case CopyFrom(_, _, _) => CopySteps(w, s, op);
  }

  /** What is found in the cache means something. */
  lemma HitMeans(w: World, s: State, op: Op)
    requires Keyed(w) && Coherent(w, s) && HitsKey(w, s, op)
    ensures Meaning(w, s.image, op).Some?
    ensures op.AddFiles? ==> op.files != []
  {
    var p, key := IdOf(s.image), KeyOf(w, s.image, op).value;
    assert op.AddFiles? ==> op.files != [];
    hide KeyOf, Meaning;
    assert Earned(w, p, key, s.cache[(p, key)]);
    HitMakes(w, s, op, key);
  }

  lemma KeptExact(w: World, s: State, op: Op)
    requires WorldOk(w) && Keyed(w) && Coherent(w, s) && CopiesKept(w, s, op)
    ensures Agrees(w, Do(w, s, op), Meaning(w, s.image, op)) <==> Clean(w, s, op)
  {
    var src := s.kept[op.source].image;
    KeptIs(w, s, op.source);
    hide WorldOk, Keyed, CacheOk, KeptOk, Meaning, Do, OtherLayer, HitsKey;
    KeptCopy(w, s, op);
    KeptMeans(w, s.image, src, op);
    var m, n := KeptMeaning(w, s.image, src, op), Meaning(w, s.image, op);
    if FindsOther(w, s, AsFiles(s, op)) { HitMeans(w, s, AsFiles(s, op)); }
    var r := Do(w, s, op);
    if r.Some? {
      Outcomes(w, n, m, Some(r.value.image));
      Outcomes(w, m, Some(r.value.image), n);
      Outcomes(w, Some(r.value.image), n, m);
    }
  }

  /** One operation: the builder succeeds if and only if the operation means something,
      and then has the image that was meant and everything that belongs to it, exactly
      when it neither leaves a bundle behind nor makes another layer of a kept root file
      system. */
  lemma StepAgreesIff(w: World, s: State, op: Op)
    requires WorldOk(w) && Keyed(w) && Coherent(w, s)
    ensures Agrees(w, Do(w, s, op), Meaning(w, s.image, op)) <==> Clean(w, s, op)
  {
    hide WorldOk, Keyed, CacheOk, KeptOk, Meaning, Do, HitsKey;
    if CopiesKept(w, s, op) {
      KeptExact(w, s, op);
    } else {
      OtherSteps(w, s, op);
      if FindsOther(w, s, op) { HitMeans(w, s, op); }
    }
  }

  /** The image is the one that was meant even where the bundle is left behind. */
  lemma StepMakes(w: World, s: State, op: Op)
    requires WorldOk(w) && Keyed(w) && Coherent(w, s)
    ensures var r, m := Do(w, s, op), Meaning(w, s.image, op);
      (if r.Some? then SameOutcome(w, m, Some(r.value.image)) else m == None) <==> !MakesOtherLayer(w, s, op)
  {
    hide WorldOk, Keyed, CacheOk, KeptOk, Meaning, Do, HitsKey, OtherLayer;
    if CopiesKept(w, s, op) {
      var src := s.kept[op.source].image;
      KeptIs(w, s, op.source);
      KeptCopy(w, s, op);
      KeptMeans(w, s.image, src, op);
      var m, n := KeptMeaning(w, s.image, src, op), Meaning(w, s.image, op);
      var r := Do(w, s, op);
      if r.Some? {
        Outcomes(w, n, m, Some(r.value.image));
        Outcomes(w, m, Some(r.value.image), n);
        Outcomes(w, Some(r.value.image), n, m);
      }
    } else {
      OtherSteps(w, s, op);
    }
  }

  // -------------------------------------------------------------------- whole builds

  function DoAll(w: World, s: State, ops: seq<Op>): Option<State>
    decreases |ops|
  {
    if ops == [] then Some(s)
    else
      var before := DoAll(w, s, ops[..|ops| - 1]);
      if before.None? then None else Do(w, before.value, ops[|ops| - 1])
  }

  predicate CleanRun(w: World, s: State, ops: seq<Op>)
    decreases |ops|
  {
    ops == [] ||
    var n := |ops| - 1;
    CleanRun(w, s, ops[..n]) && (DoAll(w, s, ops[..n]).Some? ==> Clean(w, DoAll(w, s, ops[..n]).value, ops[n]))
  }

  /** After every operation the builder agrees with what the operations mean. */
  ghost predicate AgreesThroughout(w: World, s: State, i: Option<Image>, ops: seq<Op>)
    decreases |ops|
  {
    && Agrees(w, DoAll(w, s, ops), MeaningAll(w, i, ops))
    && (ops == [] || AgreesThroughout(w, s, i, ops[..|ops| - 1]))
  }

  lemma MeaningKnown(w: World, i: Option<Image>, op: Op)
    requires WorldOk(w) && Known(w, i)
    ensures Meaning(w, i, op).Some? ==> Known(w, Meaning(w, i, op).value)
  {
  }

  lemma {:induction false} MeaningAllKnown(w: World, i: Option<Image>, ops: seq<Op>)
    requires WorldOk(w) && Known(w, i)
    ensures MeaningAll(w, i, ops).Some? ==> Known(w, MeaningAll(w, i, ops).value)
    decreases |ops|
  {
    hide WorldOk, Meaning, Known;
    if ops != [] {
      var n := |ops| - 1;
      MeaningAllKnown(w, i, ops[..n]);
      var before := MeaningAll(w, i, ops[..n]);
      if before.Some? { MeaningKnown(w, before.value, ops[n]); }
    }
  }

  /** The same outcome agrees with what alike parents make. */
  lemma AgreesAlike(w: World, r: Option<State>, i: Option<Image>, j: Option<Image>, op: Op)
    requires Respects(w) && Known(w, i) && Known(w, j) && Alike(w, i, j)
    ensures Agrees(w, r, Meaning(w, i, op)) <==> Agrees(w, r, Meaning(w, j, op))
  {
    hide Meaning, Coherent;
    assert SameOutcome(w, Meaning(w, i, op), Meaning(w, j, op));
  }

  /** Any sequence of operations, on any cache that was filled by builders and with any of
      its images stored, makes at every step the image that the operations mean, or fails
      where they mean none, if and only if the run is clean. */
  lemma {:induction false} BuildAgreesIff(w: World, s: State, i: Option<Image>, ops: seq<Op>)
    requires Sound(w) && Coherent(w, s) && Known(w, i) && Alike(w, i, s.image)
    ensures AgreesThroughout(w, s, i, ops) <==> CleanRun(w, s, ops)
    decreases |ops|
  {
    hide WorldOk, Keyed, Respects, Do, Meaning, Clean, CacheOk, KeptOk;
    if ops != [] {
      var n := |ops| - 1;
      BuildAgreesIff(w, s, i, ops[..n]);
      if CleanRun(w, s, ops[..n]) {
        var t, m := DoAll(w, s, ops[..n]), MeaningAll(w, i, ops[..n]);
        MeaningAllKnown(w, i, ops[..n]);
        if t.Some? {
          StepAgreesIff(w, t.value, ops[n]);
          AgreesAlike(w, Do(w, t.value, ops[n]), t.value.image, m.value, ops[n]);
        }
      }
    }
  }

  lemma AgreesAtEnd(w: World, s: State, ops: seq<Op>)
    requires Sound(w) && Coherent(w, s) && CleanRun(w, s, ops)
    ensures Agrees(w, DoAll(w, s, ops), MeaningAll(w, s.image, ops))
  {
    hide Sound, Coherent, CleanRun, Agrees;
    Comparable(w, s);
    BuildAgreesIff(w, s, s.image, ops);
  }

  lemma Comparable(w: World, s: State)
    requires Coherent(w, s)
    ensures Known(w, s.image) && Alike(w, s.image, s.image)
  {
  }

  // ------------------------------------------------------------------ without a cache

  /** The same with the cache disabled. */
  function DoUncached(w: World, s: State, ops: seq<Op>): Option<State>
    decreases |ops|
  {
    if ops == [] then Some(s.(cache := map[]))
    else
      match DoUncached(w, s, ops[..|ops| - 1])
      case None => None
      case Some(t) =>
        match Do(w, t, ops[|ops| - 1])
        case None => None
        case Some(u) => Some(u.(cache := map[]))
  }

  /** No copy makes another layer of a kept root file system. */
  predicate SameLayers(w: World, s: State, ops: seq<Op>)
    decreases |ops|
  {
    ops == [] ||
    var n := |ops| - 1;
    var t := DoUncached(w, s, ops[..n]);
    SameLayers(w, s, ops[..n]) && (t.Some? ==> !MakesOtherLayer(w, t.value, ops[n]))
  }

  lemma UncachedClean(w: World, s: State, op: Op)
    requires s.cache == map[]
    ensures !LeavesBundleBehind(w, s, op)
  {
  }

  lemma {:induction false} UncachedAgrees(w: World, s: State, i: Option<Image>, ops: seq<Op>)
    requires Sound(w) && Coherent(w, s) && Known(w, i) && Alike(w, i, s.image) && SameLayers(w, s, ops)
    ensures Agrees(w, DoUncached(w, s, ops), MeaningAll(w, i, ops))
    ensures DoUncached(w, s, ops).Some? ==> DoUncached(w, s, ops).value.cache == map[]
    decreases |ops|
  {
    hide WorldOk, Keyed, Respects, Do, Meaning, MakesOtherLayer, LeavesBundleBehind, KeptOk;
    if ops != [] {
      var n := |ops| - 1;
      UncachedAgrees(w, s, i, ops[..n]);
      var t := DoUncached(w, s, ops[..n]);
      if t.Some? {
        UncachedClean(w, t.value, ops[n]);
        MeaningAllKnown(w, i, ops[..n]);
        StepAgreesIff(w, t.value, ops[n]);
        AgreesAlike(w, Do(w, t.value, ops[n]), t.value.image, MeaningAll(w, i, ops[..n]).value, ops[n]);
      }
    }
  }

  /** A new builder on the same cache and store, after any images were removed. */
  function NewBuilder(w: World, s: State, removed: set<Id>): State {
    State(None, w.initial, None, None, map[], s.cache, s.stored - removed)
  }

  /** A build on the cache that earlier builds left, and the build without a cache, reach
      images that count as the same, or both fail. */
  lemma CachedIsUncached(w: World, s: State, earlier: seq<Op>, removed: set<Id>, ops: seq<Op>)
    requires Sound(w) && Coherent(w, s) && CleanRun(w, s, earlier) && DoAll(w, s, earlier).Some?
    requires CleanRun(w, NewBuilder(w, DoAll(w, s, earlier).value, removed), ops)
    requires SameLayers(w, NewBuilder(w, s, removed), ops)
    ensures var warm := DoAll(w, NewBuilder(w, DoAll(w, s, earlier).value, removed), ops);
      var cold := DoUncached(w, NewBuilder(w, s, removed), ops);
      && warm.Some? == cold.Some?
      && (warm.Some? ==> Alike(w, warm.value.image, cold.value.image))
      && (warm.Some? ==>
           warm.value.config == ConfigOf(w, warm.value.image) && cold.value.config == ConfigOf(w, cold.value.image))
  {
    hide Sound, DoAll, DoUncached, MeaningAll, CleanRun, SameLayers;
    AgreesAtEnd(w, s, earlier);
    AgreesAtEnd(w, NewBuilder(w, DoAll(w, s, earlier).value, removed), ops);
    UncachedAgrees(w, NewBuilder(w, s, removed), None, ops);
  }

  // ------------------------------------------------------------- what counts of an image

  /** The whole image counts. */
  ghost predicate Exact(w: World) {
    forall i, j :: Known(w, Some(i)) && Known(w, Some(j)) && w.view(i) == w.view(j) ==> i == j
  }

  lemma ExactRespects(w: World)
    requires Exact(w)
    ensures Respects(w)
  {
    hide Meaning;
    forall i, j, op | Known(w, i) && Known(w, j) && Alike(w, i, j)
      ensures SameOutcome(w, Meaning(w, i, op), Meaning(w, j, op))
    {
      assert i == j;
    }
  }

  /** The file system and the config up to its history count, and no operation looks into
      the history. */
  ghost predicate IgnoresHistory(w: World, core: Config -> string) {
    && (forall i, j :: w.view(i) == w.view(j) <==> i.fs == j.fs && core(i.config) == core(j.config))
    && (forall c, d, x :: core(c) == core(d) ==> core(w.edit(c, x)) == core(w.edit(d, x)))
    && (forall c, d, x :: core(c) == core(d) ==> core(w.withUser(c, x)) == core(w.withUser(d, x)))
    && (forall c, k :: core(w.note(c, k)) == core(c))
    && (forall c, d, p, q :: core(c) == core(d) && Alike(w, p, q) ==> Alike(w, w.commit(c, p), w.commit(d, q)))
    && (forall f, p, q, c, d, k, l :: core(c) == core(d) && Alike(w, p, q) ==>
         Alike(w, w.layer(f, p, c, k), w.layer(f, q, d, l)))
    && (forall f, c, d, a :: core(c) == core(d) ==> w.exec(f, c, a) == w.exec(f, d, a))
    && (forall f, o, fs, c, d, u :: core(c) == core(d) ==> w.place(f, o, fs, c, u) == w.place(f, o, fs, d, u))
  }

  lemma IgnoringRespects(w: World, core: Config -> string)
    requires IgnoresHistory(w, core)
    ensures Respects(w)
  {
    forall i, j, op | Known(w, i) && Known(w, j) && Alike(w, i, j)
      ensures SameOutcome(w, Meaning(w, i, op), Meaning(w, j, op))
    {
      IgnoringMeans(w, core, i, j, op);
    }
  }

  /** Parents that count as the same, with configs that count as the same. */
  ghost predicate SameParents(w: World, core: Config -> string, i: Option<Image>, j: Option<Image>) {
    Alike(w, i, j) && FsOf(w, i) == FsOf(w, j) && core(ConfigOf(w, i)) == core(ConfigOf(w, j))
  }

  lemma PlacedAlike(w: World, core: Config -> string, i: Option<Image>, j: Option<Image>, origin: Origin,
                    files: seq<string>, user: string)
    requires IgnoresHistory(w, core) && SameParents(w, core, i, j)
    ensures Placed(w, i, origin, files, user) == Placed(w, j, origin, files, user)
  {
  }

  lemma LayersAlike(w: World, core: Config -> string, f: Fs, i: Option<Image>, j: Option<Image>, k: Key, l: Key)
    requires IgnoresHistory(w, core) && SameParents(w, core, i, j)
    ensures Alike(w, w.layer(f, i, ConfigOf(w, i), k), w.layer(f, j, ConfigOf(w, j), l))
  {
  }

  lemma CommitsAlike(w: World, core: Config -> string, c: Config, d: Config, i: Option<Image>, j: Option<Image>,
                     k: Key, l: Key)
    requires IgnoresHistory(w, core) && Alike(w, i, j) && core(c) == core(d)
    ensures Alike(w, w.commit(w.note(c, k), i), w.commit(w.note(d, l), j))
  {
    assert core(w.note(c, k)) == core(w.note(d, l));
  }

  lemma ConfigsAlike(w: World, core: Config -> string, i: Option<Image>, j: Option<Image>, op: Op)
    requires IgnoresHistory(w, core) && SameParents(w, core, i, j) && (op.Configure? || op.SetUser?)
    ensures SameOutcome(w, Meaning(w, i, op), Meaning(w, j, op))
  {
    var c, d := ConfigOf(w, i), ConfigOf(w, j);
    match op
    case Configure(change) =>
      var c', d' := w.edit(c, change), w.edit(d, change);
      assert core(c') == core(d');
      CommitsAlike(w, core, c', d', i, j, w.editKey(c', change), w.editKey(d', change));
    case SetUser(user) =>
      assert core(w.withUser(c, user)) == core(w.withUser(d, user));
      CommitsAlike(w, core, w.withUser(c, user), w.withUser(d, user), i, j, w.userKey(user), w.userKey(user));
  }

  lemma FilesAlike(w: World, core: Config -> string, i: Option<Image>, j: Option<Image>, op: Op)
    requires IgnoresHistory(w, core) && SameParents(w, core, i, j) && !op.Configure? && !op.SetUser?
    ensures SameOutcome(w, Meaning(w, i, op), Meaning(w, j, op))
  {
    match op
    case From(_) =>
    case Run(args) =>
      var f := w.exec(FsOf(w, i), ConfigOf(w, i), args);
      assert f == w.exec(FsOf(w, j), ConfigOf(w, j), args);
      hide IgnoresHistory;
      if f.Some? { LayersAlike(w, core, f.value, i, j, w.runKey(args), w.runKey(args)); }
    case AddFiles(origin, files, user) =>
      hide IgnoresHistory;
      PlacedAlike(w, core, i, j, origin, files, user);
      var f := Placed(w, i, origin, files, user);
      hide Placed;
      if f.Some? { LayersAlike(w, core, f.value, i, j, w.filesKey(user, f.value), w.filesKey(user, f.value)); }
    case CopyFrom(source, files, user) =>
      hide IgnoresHistory;
      var src := w.resolve(source);
      if src.Some? {
        PlacedAlike(w, core, i, j, Rootfs(src.value.fs), files, user);
        var f := Placed(w, i, Rootfs(src.value.fs), files, user);
        hide Placed;
        if f.Some? {
          LayersAlike(w, core, f.value, i, j, w.copyKey(src.value.id, files, user, ConfigOf(w, i)),
                      w.copyKey(src.value.id, files, user, ConfigOf(w, j)));
        }
      }
  }

  lemma IgnoringMeans(w: World, core: Config -> string, i: Option<Image>, j: Option<Image>, op: Op)
    requires IgnoresHistory(w, core) && Alike(w, i, j)
    ensures SameOutcome(w, Meaning(w, i, op), Meaning(w, j, op))
  {
    assert SameParents(w, core, i, j);
    hide IgnoresHistory, Meaning, SameParents;
    if op.Configure? || op.SetUser? {
      ConfigsAlike(w, core, i, j, op);
    } else {
      FilesAlike(w, core, i, j, op);
    }
  }

  /** Then a copy from a kept root file system makes the file system and the config that
      were meant, as long as it copies something. */
  lemma KeptMakesSameLayer(w: World, core: Config -> string, s: State, op: Op)
    requires IgnoresHistory(w, core) && (op.CopyFrom? ==> op.files != [])
    ensures !MakesOtherLayer(w, s, op)
  {
    hide HitsKey;
    assert Alike(w, s.image, s.image);
  }

  predicate CopiesFiles(ops: seq<Op>) {
    forall k :: 0 <= k < |ops| && ops[k].CopyFrom? ==> ops[k].files != []
  }

  predicate BundlesFollow(w: World, s: State, ops: seq<Op>)
    decreases |ops|
  {
    ops == [] ||
    var n := |ops| - 1;
    BundlesFollow(w, s, ops[..n]) &&
      (DoAll(w, s, ops[..n]).Some? ==> !LeavesBundleBehind(w, DoAll(w, s, ops[..n]).value, ops[n]))
  }

  lemma {:induction false} CleanIffBundlesFollow(w: World, core: Config -> string, s: State, ops: seq<Op>)
    requires IgnoresHistory(w, core) && CopiesFiles(ops)
    ensures CleanRun(w, s, ops) <==> BundlesFollow(w, s, ops)
    decreases |ops|
  {
    hide IgnoresHistory, Do, LeavesBundleBehind, MakesOtherLayer;
    if ops != [] {
      var n := |ops| - 1;
      CleanIffBundlesFollow(w, core, s, ops[..n]);
      var t := DoAll(w, s, ops[..n]);
      if t.Some? { KeptMakesSameLayer(w, core, t.value, ops[n]); }
    }
  }

  lemma {:induction false} IgnoringSameLayers(w: World, core: Config -> string, s: State, ops: seq<Op>)
    requires IgnoresHistory(w, core) && CopiesFiles(ops)
    ensures SameLayers(w, s, ops)
    decreases |ops|
  {
    hide IgnoresHistory, Do, MakesOtherLayer;
    if ops != [] {
      var n := |ops| - 1;
      IgnoringSameLayers(w, core, s, ops[..n]);
      var t := DoUncached(w, s, ops[..n]);
      if t.Some? { KeptMakesSameLayer(w, core, t.value, ops[n]); }
    }
  }

  /** Whatever is copied from whatever was kept, cached builds make the file systems and
      the configs of uncached builds, if no bundle is left behind. */
  lemma SameFilesAsUncached(w: World, core: Config -> string, s: State, earlier: seq<Op>, removed: set<Id>,
                            ops: seq<Op>)
    requires WorldOk(w) && Keyed(w) && IgnoresHistory(w, core) && Coherent(w, s) && CopiesFiles(earlier) &&
      CopiesFiles(ops)
    requires BundlesFollow(w, s, earlier) && DoAll(w, s, earlier).Some?
    requires BundlesFollow(w, NewBuilder(w, DoAll(w, s, earlier).value, removed), ops)
    ensures var warm := DoAll(w, NewBuilder(w, DoAll(w, s, earlier).value, removed), ops);
      var cold := DoUncached(w, NewBuilder(w, s, removed), ops);
      && warm.Some? == cold.Some?
      && (warm.Some? ==> Alike(w, warm.value.image, cold.value.image))
  {
    hide WorldOk, Keyed, DoAll, DoUncached, CleanRun, SameLayers, BundlesFollow, IgnoresHistory, CopiesFiles, Coherent;
    IgnoringRespects(w, core);
    CleanIffBundlesFollow(w, core, s, earlier);
    CleanIffBundlesFollow(w, core, NewBuilder(w, DoAll(w, s, earlier).value, removed), ops);
    IgnoringSameLayers(w, core, NewBuilder(w, s, removed), ops);
    CachedIsUncached(w, s, earlier, removed, ops);
  }

  // -------------------------------------------------------------- where it departs

  /** Files are copied, commands run and layers made by appending to the file system. */
  function Appending(): World {
    World("", "", id => Image(id, "", id), (i: Image) => i.fs, n => Some(Image(n, "", n)), (c, _) => c,
          (_, _) => "EDIT", (c, _) => c, _ => "USER",
          _ => "RUN", (_, _) => "COPY", (_, _, _, _) => "COPY --from", (c, _) => c,
          (_, p: Option<Image>) => if p.None? then None else Some(Image(p.value.fs, "", p.value.fs)),
          (f, _, _, _) => Some(Image(f, "", f)),
          (f, _, _) => Some(f + "!"), _ => None, (_, _) => Some(0),
          (f, _, _, _, _) => Some(f + "+"), (_, f) => f)
  }

  lemma AppendingOk()
    ensures Sound(Appending()) && Exact(Appending())
  {
    AppendingKeyed();
    assert WorldOk(Appending()) && Exact(Appending()) by { hide Meaning, KeyOf; }
    hide WorldOk, Keyed, Exact;
    ExactRespects(Appending());
  }

  function ByKey(i: Option<Image>, key: Key): Option<Option<Image>> {
    if i.None? then None
    else
      var f := i.value.fs;
      var g := if key == "RUN" then f + "!" else if key == "COPY" || key == "COPY --from" then f + "+" else f;
      Some(Some(Image(g, "", g)))
  }

  lemma AppendingMeans(i: Option<Image>, op: Op)
    requires KeyOf(Appending(), i, op).Some?
    ensures Meaning(Appending(), i, op) == ByKey(i, KeyOf(Appending(), i, op).value)
  {
  }

  lemma AppendingKeyed()
    ensures Keyed(Appending())
  {
    var w := Appending();
    forall i, o, o' | KeyOf(w, i, o).Some? && KeyOf(w, i, o) == KeyOf(w, i, o')
      ensures SameOutcome(w, Meaning(w, i, o), Meaning(w, i, o'))
    {
      hide KeyOf, Meaning, Appending;
      AppendingMeans(i, o);
      AppendingMeans(i, o');
    }
  }

  const COPY_USER := AddFiles(Context("."), ["f"], "user")

  lemma CopyMeans()
    ensures var w := Appending();
      var i := Some(w.image("a"));
      KeyOf(w, i, COPY_USER) == Some("COPY") && Meaning(w, i, COPY_USER) == Some(Some(w.image("a+")))
  {
    var w := Appending();
    assert "a" + "+" == "a+";
    assert Placed(w, Some(w.image("a")), COPY_USER.origin, COPY_USER.files, COPY_USER.user) == Some("a+");
  }

  /** The state before, and after the copied files were found in the cache. */
  function BeforeCopy(): State {
    State(Some(Image("a", "", "a")), "", None, None, map[], map[(Some("a"), "COPY") := "a+"], {"a+"})
  }

  function AfterCopy(): State {
    BeforeCopy().(image := Some(Image("a+", "", "a+")), bundle := Some("a"))
  }

  lemma CopyHits()
    ensures Do(Appending(), BeforeCopy(), COPY_USER) == Some(AfterCopy())
  {
    var w, s := Appending(), BeforeCopy();
    var t := PlaceFiles(w, s, COPY_USER.origin, COPY_USER.files, COPY_USER.user).value;
    assert t == s.(bundle := Some("a"), fsBuilder := Some("a" + "+"));
    assert Hit(t, "COPY");
  }

  lemma RunDiffers()
    ensures var w := Appending();
      var r := Do(w, AfterCopy(), Run("make"));
      && Meaning(w, AfterCopy().image, Run("make")) == Some(Some(w.image("a+!")))
      && r.Some? && r.value.image == Some(w.image("a!"))
  {
    assert "a+" + "!" == "a+!" && "a" + "!" == "a!";
    assert !Hit(AfterCopy(), "RUN");
  }

  /** A user name opens the bundle before the copied files are found in the cache. The
      bundle then lacks the files, and so does what the next command makes of it. */
  lemma StaleBundle() returns (w: World, s: State, ops: seq<Op>)
    ensures Sound(w) && Exact(w) && Coherent(w, s)
    ensures var r, m := DoAll(w, s, ops), MeaningAll(w, s.image, ops);
      m == Some(Some(w.image("a+!"))) && r.Some? && r.value.image == Some(w.image("a!"))
  {
    hide Sound, Exact, Do, Meaning, KeyOf;
    AppendingOk();
    CopyMeans();
    CopyHits();
    RunDiffers();
    w, s, ops := Appending(), BeforeCopy(), [COPY_USER, Run("make")];
    assert Named(w, Some("a")) == s.image;
    assert Earned(w, Some("a"), "COPY", "a+");
    assert ops[..1] == [COPY_USER] && [COPY_USER][..0] == [];
    assert MeaningAll(w, s.image, [COPY_USER]) == Some(Some(w.image("a+")));
    assert DoAll(w, s, [COPY_USER]) == Some(AfterCopy());
  }

  /** Every layer is an image of its own. */
  function Labelling(): World {
    World("", "", id => Image(id, id, "fs"), (i: Image) => i.id, n => Some(Image(n, n, "fs")), (c, _) => c,
          (_, _) => "EDIT", (c, _) => c, _ => "USER",
          _ => "RUN", (_, _) => "COPY", (_, _, _, _) => "COPY --from", (c, _) => c,
          (_, _) => None, (f, _, _, k) => if f == "fs" then Some(Image(k, k, "fs")) else None,
          (_, _, _) => None, _ => Some(0), (_, _) => None,
          (_, _, _, _, _) => Some("fs"), (_, f) => f)
  }

  lemma LabellingOk()
    ensures Sound(Labelling()) && Exact(Labelling())
  {
    LabellingKeyed();
    assert WorldOk(Labelling()) && Exact(Labelling()) by { hide Meaning, KeyOf; }
    hide WorldOk, Keyed, Exact;
    ExactRespects(Labelling());
  }

  lemma LabellingMeans(i: Option<Image>, op: Op)
    requires Known(Labelling(), i) && KeyOf(Labelling(), i, op).Some?
    ensures var key := KeyOf(Labelling(), i, op).value;
      Meaning(Labelling(), i, op) ==
      if key == "EDIT" || key == "USER" || key == "RUN" then None else Some(Some(Image(key, key, "fs")))
  {
  }

  lemma LabellingKeyed()
    ensures Keyed(Labelling())
  {
    var w := Labelling();
    forall i, o, o' | Known(w, i) && KeyOf(w, i, o).Some? && KeyOf(w, i, o) == KeyOf(w, i, o')
      ensures SameOutcome(w, Meaning(w, i, o), Meaning(w, i, o'))
    {
      hide KeyOf, Meaning, Labelling;
      LabellingMeans(i, o);
      LabellingMeans(i, o');
    }
  }

  lemma LabellingIgnoresHistory()
    ensures IgnoresHistory(Labelling().(view := (i: Image) => i.fs), (c: Config) => "")
  {
  }

  /** Copying from a root file system that was left behind makes another image than
      copying from the same image unpacked, although the two differ in the history only. */
  lemma KeptSourceDiffers() returns (w: World, s: State, op: Op)
    ensures Sound(w) && Exact(w) && Coherent(w, s) && op.CopyFrom? && op.source in s.kept
    ensures w.resolve(op.source) == Some(s.kept[op.source].image) && MakesOtherLayer(w, s, op)
    ensures Do(w, s, op).Some? && Meaning(w, s.image, op).Some?
    ensures Do(w, s, op).value.image != Meaning(w, s.image, op).value
    ensures IgnoresHistory(w.(view := (i: Image) => i.fs), (c: Config) => "")
  {
    hide Sound, Exact, IgnoresHistory;
    LabellingOk();
    LabellingIgnoresHistory();
    w := Labelling();
    s := State(None, "", None, None, map["a" := Kept("fs", w.image("a"))], map[], {});
    op := CopyFrom("a", ["f"], "0");
  }

  // ----------------------------------------------------------------- ImageBuilder

  class ImageBuilder {
    const w: World
    var image: Option<Image>
    var config: Config
    var bundle: Option<Fs>
    var fsBuilder: Option<Fs>
    var kept: map<string, Kept>
    var cache: map<(Option<Id>, Key), Id>
    var stored: set<Id>

    ghost function St(): State
      reads this
    {
      State(image, config, bundle, fsBuilder, kept, cache, stored)
    }

    constructor (world: World, c: map<(Option<Id>, Key), Id>, images: set<Id>)
      ensures w == world && St() == State(None, world.initial, None, None, map[], c, images)
    {
      w, image, config, bundle, fsBuilder := world, None, world.initial, None, None;
      kept, cache, stored := map[], c, images;
    }

    method SetTo(i: Option<Image>)
      modifies this`image, this`config
      ensures St() == SetImage(w, old(St()), i)
    {
      image, config := i, if i.Some? then i.value.config else w.initial;
    }

    method InitBundle()
      modifies this`bundle
      ensures St() == Open(w, old(St()))
    {
      if bundle.None? {
        bundle := Some(if image.Some? then image.value.fs else w.empty);
      }
    }

    method UserIds(user: string) returns (r: Option<nat>)
      modifies this`bundle
      ensures r.Some? == ResolveUser(w, old(St()), user).Some?
      ensures r.Some? ==> (St(), r.value) == ResolveUser(w, old(St()), user).value
    {
      r := w.numeric(user);
      if r.Some? || (bundle.None? && image.None?) { return; }
      InitBundle();
      r := w.lookup(user, bundle.value);
    }

    method Commit(key: Key) returns (ok: bool)
      modifies this`image, this`config, this`stored
      ensures ok == CommitConfig(w, old(St()), key).Some?
      ensures ok ==> St() == CommitConfig(w, old(St()), key).value
      ensures !ok ==> St() == old(St()).(config := w.note(old(config), key))
    {
      config := w.note(config, key);
      var i := w.commit(config, image);
      if i.None? { return false; }
      stored := stored + {i.value.id};
      SetTo(i);
      return true;
    }

    method Layer(f: Fs, key: Key) returns (ok: bool)
      modifies this`image, this`config, this`stored, this`fsBuilder
      ensures ok == AddLayer(w, old(St()), f, key).Some?
      ensures ok ==> St() == AddLayer(w, old(St()), f, key).value
      ensures !ok ==> St() == old(St())
    {
      var i := w.layer(f, image, config, key);
      if i.None? { return false; }
      stored := stored + {i.value.id};
      SetTo(i);
      fsBuilder := Some(f);
      return true;
    }

    method LayerToBundle(f: Fs, key: Key) returns (ok: bool)
      modifies this
      ensures ok == AddLayerToBundle(w, old(St()), f, key).Some?
      ensures ok ==> St() == AddLayerToBundle(w, old(St()), f, key).value && image.Some?
      ensures !ok ==> St() == old(St()).(bundle := bundle)
    {
      if bundle.Some? { bundle := Some(w.overwrite(bundle.value, f)); }
      ok := Layer(f, key);
    }

    /** The part of cached before the call. */
    method Find(key: Key) returns (hit: bool)
      modifies this`image, this`config, this`fsBuilder
      ensures hit == Hit(old(St()), key)
      ensures hit ==> forall call :: Cached(w, old(St()), key, call) == Some(St())
      ensures !hit ==> St() == old(St())
    {
      var entry := (IdOf(image), key);
      if entry !in cache || cache[entry] !in stored { return false; }
      SetTo(Some(w.image(cache[entry])));
      fsBuilder := None;
      return true;
    }

    method Configure(change: string) returns (ok: bool)
      modifies this
      ensures ok == Do(w, old(St()), Op.Configure(change)).Some?
      ensures ok ==> St() == Do(w, old(St()), Op.Configure(change)).value
      ensures !ok ==> St() == old(St()).(config := config, bundle := None)
    {
      config := w.edit(config, change);
      var parent, key := IdOf(image), w.editKey(config, change);
      ok := Find(key);
      if !ok {
        ok := Commit(key);
        if ok { cache := cache[(parent, key) := image.value.id]; } else { bundle := None; }
      }
    }

    method SetUser(user: string) returns (ok: bool)
      modifies this
      ensures ok == Do(w, old(St()), Op.SetUser(user)).Some?
      ensures ok ==> St() == Do(w, old(St()), Op.SetUser(user)).value
      ensures !ok ==> St() == old(St()).(config := config, bundle := None)
    {
      config := w.withUser(config, user);
      var parent, key := IdOf(image), w.userKey(user);
      ok := Find(key);
      if !ok {
        var ids := UserIds(user);
        if ids.Some? { ok := Commit(key); }
        if ok { cache := cache[(parent, key) := image.value.id]; } else { bundle := None; }
      }
    }

    method Run(args: string) returns (ok: bool)
      modifies this
      ensures ok == Do(w, old(St()), Op.Run(args)).Some?
      ensures ok ==> St() == Do(w, old(St()), Op.Run(args)).value
      ensures !ok ==> St() == if old(image).None? then old(St()) else old(St()).(bundle := None)
    {
      if image.None? { return false; }
      var parent, key := IdOf(image), w.runKey(args);
      ok := Find(key);
      if !ok {
        InitBundle();
        var f := w.exec(bundle.value, config, args);
        if f.Some? {
          bundle := f;
          ok := Layer(f.value, key);
        }
        if ok { cache := cache[(parent, key) := image.value.id]; } else { bundle := None; }
      }
    }

    /** Resolves the user and copies files into the file system builder. */
    method CopyInto(origin: Origin, files: seq<string>, user: string) returns (f: Option<Fs>)
      modifies this`bundle, this`fsBuilder
      ensures f.Some? == PlaceFiles(w, old(St()), origin, files, user).Some?
      ensures f.Some? ==> St() == PlaceFiles(w, old(St()), origin, files, user).value && fsBuilder == f
      ensures f.None? ==> fsBuilder == old(fsBuilder)
    {
      var base := if fsBuilder.Some? then fsBuilder.value else if image.Some? then image.value.fs else w.empty;
      var ids := UserIds(user);
      if ids.None? { return None; }
      f := w.place(base, origin, files, config, ids.value);
      if f.Some? { fsBuilder := f; }
    }

    method AddFiles(origin: Origin, files: seq<string>, user: string) returns (ok: bool)
      modifies this
      ensures ok == DoFiles(w, old(St()), origin, files, user).Some?
      ensures ok ==> St() == DoFiles(w, old(St()), origin, files, user).value
      ensures !ok ==> St() == old(St()).(bundle := bundle, fsBuilder := fsBuilder)
    {
      hide PlaceFiles, AddLayerToBundle;
      if files == [] { return true; }
      var f := CopyInto(origin, files, user);
      if f.None? { return false; }
      var parent, key := IdOf(image), w.filesKey(user, f.value);
      ok := Find(key);
      if !ok {
        ok := LayerToBundle(f.value, key);
        if ok { cache := cache[(parent, key) := image.value.id]; } else { bundle := None; }
      }
    }

    /** Copies from a root file system that was left behind. */
    method CopyFromKept(source: string, files: seq<string>, user: string) returns (ok: bool)
      requires source in kept
      modifies this
      ensures ok == DoCopy(w, old(St()), CopyFrom(source, files, user)).Some?
      ensures ok ==> St() == DoCopy(w, old(St()), CopyFrom(source, files, user)).value
      ensures !ok ==> St() == old(St()).(bundle := None, fsBuilder := fsBuilder)
    {
      var k := kept[source];
      var parent, key := IdOf(image), w.copyKey(k.image.id, files, user, config);
      ok := Find(key);
      if !ok {
        ok := AddFiles(Rootfs(k.fs), files, user);
        // an empty list of files leaves no image to remember
        if !ok || image.None? {
          bundle := None;
          return false;
        }
        cache := cache[(parent, key) := image.value.id];
      }
    }

    /** Copies from an image, which is unpacked and kept. */
    method CopyFromUnpacked(source: string, i: Image, files: seq<string>, user: string) returns (ok: bool)
      requires source !in kept && w.resolve(source) == Some(i)
      modifies this
      ensures ok == DoCopy(w, old(St()), CopyFrom(source, files, user)).Some?
      ensures ok ==> St() == DoCopy(w, old(St()), CopyFrom(source, files, user)).value
      ensures !ok ==> St() == Unpacked(old(St()), source, i).(bundle := None, fsBuilder := fsBuilder)
    {
      hide PlaceFiles, AddLayerToBundle;
      var parent, key := IdOf(image), w.copyKey(i.id, files, user, config);
      ok := Find(key);
      if !ok {
        kept := kept[source := Kept(i.fs, i)][i.id := Kept(i.fs, i)];
        var f := CopyInto(Rootfs(i.fs), files, user);
        if f.Some? { ok := LayerToBundle(f.value, key); }
        if ok { cache := cache[(parent, key) := image.value.id]; } else { bundle := None; }
      }
    }

    method CopyFilesFromImage(source: string, files: seq<string>, user: string) returns (ok: bool)
      modifies this
      ensures ok == Do(w, old(St()), CopyFrom(source, files, user)).Some?
      ensures ok ==> St() == Do(w, old(St()), CopyFrom(source, files, user)).value
      ensures !ok ==> St() == old(St()).(bundle := bundle, fsBuilder := fsBuilder, kept := kept)
    {
      if source in kept {
        ok := CopyFromKept(source, files, user);
      } else {
        var src := w.resolve(source);
        if src.None? { return false; }
        ok := CopyFromUnpacked(source, src.value, files, user);
      }
    }

    method FromImage(name: string) returns (ok: bool)
      modifies this
      ensures ok == Do(w, old(St()), From(name)).Some?
      ensures ok ==> St() == Do(w, old(St()), From(name)).value
      ensures !ok ==> St() == old(St()).(bundle := bundle, fsBuilder := fsBuilder, kept := kept)
    {
      if name == "" { return false; }
      if bundle.Some? && image.Some? {
        kept := kept[image.value.id := Kept(bundle.value, image.value)];
      }
      bundle, fsBuilder := None, None;
      var i: Option<Image> := None;
      if name != "scratch" {
        i := w.resolve(name);
        if i.None? { return false; }
      }
      SetTo(i);
      return true;
    }
  }
}
