/** The build cache file: an append-only log of entries that is read into a map. */
module CacheLog {
  import opened Options

  /** bufio.MaxScanTokenSize: a line and its line break have to fit in. */
  const MAX_LINE := 65536

  /** A line of the file, without its line break: an entry, or text that is none. */
  datatype Line =
    | Entry(key: string, value: string, size: nat)
    | Garbage(size: nat)

  /** The lines that end in a line break, and what an interrupted write left behind them:
      the first bytes of an entry, maybe all but the line break. */
  datatype File = File(lines: seq<Line>, tail: Option<Line>)

  /** The lines that a scanner sees. */
  function Lines(f: File): seq<Line> {
    f.lines + if f.tail.Some? then [f.tail.value] else []
  }

  /** The file after the first `n` bytes of an entry and its line break were appended. A
      torn entry with another one behind it on the same line is no entry. */
  function Written(f: File, e: Line, n: nat): File
    requires e.Entry? && n <= e.size + 1
  {
    var merged := if f.tail.Some? then Garbage(f.tail.value.size + n) else if n < e.size then Garbage(n) else e;
    if n == 0 then f
    else if n <= e.size then f.(tail := Some(merged))
    else File(f.lines + [if f.tail.Some? then Garbage(f.tail.value.size + e.size) else e], None)
  }

  predicate Readable(line: Line) {
    line.size < MAX_LINE
  }

  predicate AllReadable(lines: seq<Line>) {
    forall i :: 0 <= i < |lines| ==> Readable(lines[i])
  }

  /** The value of the last entry with the key. */
  function LastPut(lines: seq<Line>, key: string): Option<string> {
    if lines == [] then None
    else
      var line := lines[|lines| - 1];
      if line.Entry? && line.key == key then Some(line.value) else LastPut(lines[..|lines| - 1], key)
  }

  ghost predicate Mirrors(m: map<string, string>, lines: seq<Line>) {
    forall k :: (k in m <==> LastPut(lines, k).Some?) && (k in m ==> m[k] == LastPut(lines, k).value)
  }

  /** Whole lines that cannot be parsed hide nothing. */
  lemma {:induction false} GarbageIsSkipped(a: seq<Line>, g: seq<Line>, b: seq<Line>, key: string)
    requires forall i :: 0 <= i < |g| ==> g[i].Garbage?
    ensures LastPut(a + g + b, key) == LastPut(a + b, key)
    decreases |b|, |g|
  {
    if b != [] {
      var n := |b| - 1;
      assert (a + g + b)[..|a + g + b| - 1] == a + g + b[..n];
      assert (a + b)[..|a + b| - 1] == a + b[..n];
      GarbageIsSkipped(a, g, b[..n], key);
    } else if g != [] {
      var n := |g| - 1;
      assert (a + g + b)[..|a + g + b| - 1] == a + g[..n] + b;
      GarbageIsSkipped(a, g[..n], b, key);
    } else {
      assert a + g + b == a + b;
    }
  }

  // ------------------------------------------------------- what a later reader finds

  /** What a file says about a key to one who opens it: nothing at all if a line is too
      long, and else the last value. */
  function Reads(f: File, key: string): Option<Option<string>> {
    if AllReadable(Lines(f)) then Some(LastPut(Lines(f), key)) else None
  }

  lemma LastPutSnoc(lines: seq<Line>, line: Line, key: string)
    ensures LastPut(lines + [line], key) ==
      if line.Entry? && line.key == key then Some(line.value) else LastPut(lines, key)
  {
    assert (lines + [line])[..|lines|] == lines;
  }

  /** After a whole entry was appended: it is found by its key and other keys are as they
      were, unless the file did not end in a line break. Then the entry is lost, and so is
      the one before it if only its line break was missing. */
  lemma PutReads(f: File, e: Line, key: string)
    requires e.Entry?
    ensures LastPut(Lines(Written(f, e, e.size + 1)), key) ==
      if f.tail.None? && key == e.key then Some(e.value) else LastPut(f.lines, key)
  {
    var g := Written(f, e, e.size + 1);
    assert Lines(g) == g.lines;
    LastPutSnoc(f.lines, g.lines[|f.lines|], key);
  }

  /** A new value is found by one who opens the file later if and only if the file ended in
      a line break and no line is too long. */
  lemma FoundIff(f: File, e: Line)
    requires e.Entry? && LastPut(f.lines, e.key) != Some(e.value)
    ensures Reads(Written(f, e, e.size + 1), e.key) == Some(Some(e.value)) <==>
      f.tail.None? && AllReadable(f.lines) && Readable(e)
  {
    PutReads(f, e, e.key);
    var g := Written(f, e, e.size + 1);
    assert Lines(g) == g.lines && g.lines[|f.lines|] in g.lines;
    if f.tail.None? {
      assert g.lines == f.lines + [e];
      assert AllReadable(g.lines) <==> AllReadable(f.lines) && Readable(e) by {
        if AllReadable(g.lines) {
          assert forall i :: 0 <= i < |f.lines| ==> g.lines[i] == f.lines[i];
          assert Readable(g.lines[|f.lines|]);
        }
      }
    }
  }

  /** What a later reader finds after the first `n` bytes of an entry and its line break
      were appended: the entry once it is complete, with or without its line break, and what
      an earlier write left without a line break no more. */
  lemma WrittenReads(f: File, e: Line, n: nat, key: string)
    requires e.Entry? && 0 < n <= e.size + 1
    ensures var size := (if f.tail.Some? then f.tail.value.size else 0) + if n <= e.size then n else e.size;
      Reads(Written(f, e, n), key) ==
        if !AllReadable(f.lines) || size >= MAX_LINE then None
        else if f.tail.None? && n >= e.size && key == e.key then Some(Some(e.value))
        else Some(LastPut(f.lines, key))
  {
    var lines := Lines(Written(f, e, n));
    var last := lines[|f.lines|];
    assert lines == f.lines + [last];
    LastPutSnoc(f.lines, last, key);
    assert AllReadable(lines) <==> AllReadable(f.lines) && Readable(last) by {
      if AllReadable(lines) {
        assert forall i :: 0 <= i < |f.lines| ==> lines[i] == f.lines[i];
        assert Readable(lines[|f.lines|]);
      }
    }
  }

  /** An attempt to put an entry, of which `n` bytes were written. */
  datatype Attempt = Attempt(e: Line, n: nat)

  predicate GoodAttempt(a: Attempt) {
    a.e.Entry? && a.n <= a.e.size + 1
  }

  function FileAfter(log: seq<Attempt>): File
    requires forall i :: 0 <= i < |log| ==> GoodAttempt(log[i])
  {
    if log == [] then File([], None)
    else
      var n := |log| - 1;
      assert GoodAttempt(log[n]);
      Written(FileAfter(log[..n]), log[n].e, log[n].n)
  }

  /** The entries of the attempts that wrote anything. */
  function Entries(log: seq<Attempt>): seq<Line> {
    if log == [] then []
    else
      var n := |log| - 1;
      Entries(log[..n]) + if log[n].n > 0 then [log[n].e] else []
  }

  predicate Whole(a: Attempt) {
    a.n == 0 || a.n == a.e.size + 1
  }

  /** Over any sequence of attempts: the file is the log of what was put, each entry on a
      line of its own, if and only if no write was cut short. */
  lemma {:induction false} LogIff(log: seq<Attempt>)
    requires forall i :: 0 <= i < |log| ==> GoodAttempt(log[i])
    ensures FileAfter(log) == File(Entries(log), None) <==> forall i :: 0 <= i < |log| ==> Whole(log[i])
    ensures |FileAfter(log).lines| <= |Entries(log)|
    ensures FileAfter(log).tail.Some? ==> |FileAfter(log).lines| < |Entries(log)|
    decreases |log|
  {
    if log != [] {
      var n := |log| - 1;
      LogIff(log[..n]);
      var f, es := FileAfter(log[..n]), Entries(log[..n]);
      assert (forall i :: 0 <= i < |log| ==> Whole(log[i])) <==>
        (forall i :: 0 <= i < n ==> Whole(log[..n][i])) && Whole(log[n]) by {
        assert forall i :: 0 <= i < n ==> log[..n][i] == log[i];
      }
      if log[n].n > 0 && FileAfter(log) == File(Entries(log), None) {
        assert f.lines == FileAfter(log).lines[..|f.lines|];
        assert f.lines == es;
      }
    }
  }

  // ---------------------------------------------------------------------- CacheFile

  /** `known` are the lines that a map which was read stands for: those of the file at that
      time and the entries put since. */
  class CacheFile {
    var file: File
    var cache: Option<map<string, string>>
    ghost var known: seq<Line>

    ghost predicate Valid()
      reads this
    {
      cache.Some? ==> Mirrors(cache.value, known)
    }

    constructor (f: File)
      ensures Valid() && file == f && cache == None
    {
      file, cache, known := f, None, [];
    }

    /** Reading succeeds if and only if no line is too long for the scanner. */
    method Read() returns (idx: Option<map<string, string>>)
      ensures idx.Some? <==> AllReadable(Lines(file))
      ensures idx.Some? ==> Mirrors(idx.value, Lines(file))
    {
      var m: map<string, string> := map[];
      var lines := Lines(file);
      var i := 0;
      while i < |lines|
        invariant 0 <= i <= |lines| && AllReadable(lines[..i])
        invariant Mirrors(m, lines[..i])
      {
        if !Readable(lines[i]) { return None; }
        assert lines[..i + 1][..i] == lines[..i];
        if lines[i].Entry? { m := m[lines[i].key := lines[i].value]; }
        i := i + 1;
      }
      assert lines[..i] == lines;
      return Some(m);
    }

    /** On a cache that was just opened: what the file says. Else what was read then and
        put since. */
    method Get(key: string) returns (r: Option<string>, failed: bool)
      requires Valid()
      modifies this`cache, this`known
      ensures Valid() && known == if old(cache).None? && !failed then Lines(file) else old(known)
      ensures failed <==> old(cache).None? && Reads(file, key).None?
      ensures !failed ==> cache.Some? && r == LastPut(known, key)
    {
      if cache.None? {
        var m := Read();
        if m.None? { return None, true; }
        cache := m;
        known := Lines(file);
      }
      return if key in cache.value then Some(cache.value[key]) else None, false;
    }

    /** `size` is the length of the marshalled entry, `n` how many bytes of it and its line
        break are written before the write ends or fails. */
    method Put(key: string, value: string, size: nat, n: nat) returns (ok: bool)
      requires Valid() && n <= size + 1
      modifies this
      ensures Valid() && cache.Some? == old(cache).Some? && ok == (n == size + 1)
      ensures file == Written(old(file), Entry(key, value, size), n)
      ensures known == if ok && old(cache).Some? then old(known) + [Entry(key, value, size)] else old(known)
    {
      file := Written(file, Entry(key, value, size), n);
      ok := n == size + 1;
      if ok && cache.Some? {
        known := known + [Entry(key, value, size)];
        assert known[..|known| - 1] == old(known);
        cache := Some(cache.value[key := value]);
      }
    }
  }

  /** A long entry can be put, but a cache that is opened later fails on every key. */
  method LongEntryBreaksFile(key: string) returns (failed: bool)
    ensures failed
  {
    var c := new CacheFile(File([], None));
    var ok := c.Put("long", "id", MAX_LINE, MAX_LINE + 1);
    var later := new CacheFile(c.file);
    assert !Readable(Lines(later.file)[0]);
    var r, f := later.Get(key);
    failed := f;
  }

  /** Behind a write that was cut short, an entry can be put and is found by the cache that
      put it, but not by one that is opened later. */
  method TornLineLosesEntry(n: nat) returns (here: Option<string>, later: Option<string>)
    requires 0 < n <= 30
    ensures here == Some("id") && later == None
  {
    var c := new CacheFile(File([], None));
    var torn := c.Put("torn", "id", 30, n);
    var before, unread := c.Get("key");
    ghost var read := c.known;
    var ok := c.Put("key", "id", 30, 31);
    var failed;
    here, failed := c.Get("key");
    LastPutSnoc(read, Entry("key", "id", 30), "key");
    var d := new CacheFile(c.file);
    assert d.file.lines == [] + [Garbage(d.file.lines[0].size)];
    later, failed := d.Get("key");
    LastPutSnoc([], d.file.lines[0], "key");
  }
}
