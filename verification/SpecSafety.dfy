/** What any spec text that is accepted has to be, whoever wrote it. */
module SpecSafety {
  import opened FsTypes
  import opened PathWalk
  import opened Options
  import opened Text
  import opened AttrText
  import opened FsSpec

  /** The line is an entry at `p` with that text behind the name, in the directory `dir`. */
  predicate IsEntry(dir: Path, raw: string, p: Path, attrs: string) {
    var parts := Cut(TrimSpace(raw), ' ');
    && parts.Some? && attrs == TrimSpace(parts.value.1)
    && var name := Unescape(parts.value.0, InPath);
       name.Some? && p == if name.value == "." then dir else dir + [name.value]
  }

  /** The line is a link at `p` to `dest`. */
  ghost predicate IsLink(dir: Path, raw: string, p: Path, dest: Path) {
    exists attrs :: IsEntry(dir, raw, p, attrs) && "hlink=" <= attrs && Clean(attrs[6..]) == Route(true, 0, dest)
  }

  /** The line at `j` describes a node at `p`, and is no link itself. */
  ghost predicate Describes(lines: seq<string>, j: nat, p: Path, now: int) {
    && j < |lines| && ParseLines(lines[..j], now).Some?
    && exists attrs :: IsEntry(ParseLines(lines[..j], now).value.current, lines[j], p, attrs) && Node(attrs, now)
  }

  /** Text behind a name that describes a node: no link, no implicit directory, no whiteout. */
  predicate Node(attrs: string, now: int) {
    && !("hlink=" <= attrs) && attrs != "type=dir"
    && var a := ParseNodeAttrs(attrs, now);
       a.Some? && a.value.kind in {"file", "dir", "symlink", "fifo", "dev"}
  }

  ghost predicate Described(lines: seq<string>, p: Path, now: int) {
    exists j: nat :: Describes(lines, j, p, now)
  }

  lemma DescribedBefore(lines: seq<string>, n: nat, p: Path, now: int)
    requires n <= |lines| && Described(lines[..n], p, now)
    ensures Described(lines, p, now)
  {
    var j: nat :| Describes(lines[..n], j, p, now);
    assert lines[..n][..j] == lines[..j] && lines[..n][j] == lines[j];
    assert Describes(lines, j, p, now);
  }

  /** What a line adds to the paths that links may name: at most the path it describes. */
  lemma LineSees(st: Parser, raw: string, now: int, p: Path)
    requires ParseLine(st, raw, now).Some?
    ensures p in ParseLine(st, raw, now).value.seen <==>
      p in st.seen || exists attrs :: IsEntry(st.current, raw, p, attrs) && Node(attrs, now)
  {
    var parts := Cut(TrimSpace(raw), ' ');
    if parts.Some? {
      var name := Unescape(parts.value.0, InPath).value;
      var q := if name == "." then st.current else st.current + [name];
      assert IsEntry(st.current, raw, q, TrimSpace(parts.value.1));
      assert forall x, attrs :: IsEntry(st.current, raw, x, attrs) ==> x == q && attrs == TrimSpace(parts.value.1);
    } else {
      assert forall attrs :: !IsEntry(st.current, raw, p, attrs);
    }
  }

  /** The parser knows exactly the paths that some line described. */
  lemma {:induction false} SeenIsDescribed(lines: seq<string>, now: int, p: Path)
    requires ParseLines(lines, now).Some?
    ensures p in ParseLines(lines, now).value.seen <==> Described(lines, p, now)
    decreases |lines|
  {
    hide ParseLine, IsEntry, Node;
    if lines == [] {
      assert forall j: nat :: !Describes(lines, j, p, now);
    } else {
      var n := |lines| - 1;
      var st := ParseLines(lines[..n], now).value;
      SeenIsDescribed(lines[..n], now, p);
      LineSees(st, lines[n], now, p);
      if Described(lines[..n], p, now) { DescribedBefore(lines, n, p, now); }
      if exists attrs :: IsEntry(st.current, lines[n], p, attrs) && Node(attrs, now) {
        assert Describes(lines, n, p, now);
      }
      if j: nat :| Describes(lines, j, p, now) {
        if j < n {
          assert lines[..n][..j] == lines[..j] && lines[..n][j] == lines[j];
          assert Describes(lines[..n], j, p, now);
        }
      }
    }
  }

  /** A link is accepted exactly if it names a path that an earlier line described, and it
      makes its path the node that the parser has for that one. */
  lemma LinksNameEntries(lines: seq<string>, line: string, now: int, p: Path, dest: Path)
    requires ParseLines(lines, now).Some? && IsLink(ParseLines(lines, now).value.current, line, p, dest)
    requires p == ParseLines(lines, now).value.current || (p != [] && ProperName(p[|p| - 1]))
    ensures ParseLines(lines + [line], now).Some? <==> Described(lines, dest, now)
    ensures ParseLines(lines + [line], now).Some? ==>
      var st := ParseLines(lines, now).value;
      dest in st.seen && ParseLines(lines + [line], now).value.tree == SetSource(st.tree, p, st.seen[dest])
  {
    assert (lines + [line])[..|lines|] == lines;
    SeenIsDescribed(lines, now, dest);
    var st := ParseLines(lines, now).value;
    hide Described;
    var attrs :| IsEntry(st.current, line, p, attrs) && "hlink=" <= attrs && Clean(attrs[6..]) == Route(true, 0, dest);
  }
}
