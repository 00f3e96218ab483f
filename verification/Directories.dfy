/**
 Textual paths as littlefs resolves them: slashes separate names, empty names and `.` are
 skipped, `..` takes back the name before it and is an error when there is none.
 */
module Paths {
  import opened Pattern

  type Path = seq<string>

  function Flush(done: Path, name: string): Path {
    if name == "" then done else done + [name]
  }

  /** The names completed by a text, and the name still open at its end. */
  function Scan(text: string): (Path, string) {
    if text == "" then ([], "")
    else
      var (done, name) := Scan(text[..|text| - 1]);
      var c := text[|text| - 1];
      if c == '/' then (Flush(done, name), "") else (done, name + [c])
  }

  function Components(text: string): Path {
    Flush(Scan(text).0, Scan(text).1)
  }

  function Walk(names: Path): Option<Path> {
    if names == [] then Some([])
    else
      match Walk(names[..|names| - 1])
      case None => None
      case Some(p) =>
        var name := names[|names| - 1];
        if name == "." then Some(p)
        else if name == ".." then if p == [] then None else Some(p[..|p| - 1])
        else Some(p + [name])
  }

  /** Where a textual path leads, or nothing when it leads above the root. */
  function Resolve(text: string): Option<Path> { Walk(Components(text)) }

  /** A directory entry's own name. */
  predicate IsName(name: string) {
    name != "" && name != "." && name != ".." && '/' !in name
  }

  lemma {:induction false} ScanName(text: string, name: string)
    requires '/' !in name
    ensures Scan(text + "/" + name) == (Components(text), name)
  {
    if name == "" {
      assert text + "/" + name == text + "/";
      assert (text + "/")[..|text|] == text;
    } else {
      var init := name[..|name| - 1];
      ScanName(text, init);
      assert (text + "/" + name)[..|text| + |name|] == text + "/" + init;
      assert name == init + [name[|name| - 1]];
    }
  }

  /** Appending a slash and an entry's name to a path leads to that entry of where the path leads. */
  lemma ResolveChild(text: string, name: string)
    requires IsName(name) && Resolve(text).Some?
    ensures Resolve(text + "/" + name) == Some(Resolve(text).value + [name])
  {
    ScanName(text, name);
    assert Components(text + "/" + name) == Components(text) + [name];
    assert (Components(text) + [name])[..|Components(text)|] == Components(text);
  }

  /** The path written out, a slash before each name. */
  function Text(p: Path): string {
    if p == [] then "" else Text(p[..|p| - 1]) + "/" + p[|p| - 1]
  }

  /** A path of proper names that is written out leads back to itself. */
  lemma {:induction false} TextResolves(p: Path)
    requires forall k :: 0 <= k < |p| ==> IsName(p[k])
    ensures Resolve(Text(p)) == Some(p)
  {
    if p != [] {
      var init, last := p[..|p| - 1], p[|p| - 1];
      TextResolves(init);
      ResolveChild(Text(init), last);
      assert p == init + [last];
    }
  }
}

/**
 Creating directories with their parents and deleting directory trees (`createDirectory`,
 `deleteDirectory`), on a tree of nodes keyed by path.
 */
module Directories {
  import opened LfsErrors
  import opened Pattern
  import opened Paths

  const NAME_MAX := 24
  const PATH_BUFFER := NAME_MAX * 2
  const CHILD_BUFFER := 256

  datatype Node = Dir | File(data: bytes)

  /** What the device does to the t-th operation: nothing, an error before it takes effect, or one after. */
  datatype Fault = Fine | Refused(code: ErrorCode) | Torn(code: ErrorCode)

  /** Device error codes; none of them is the one for an existing entry. */
  type ErrorCode = c: int | c < 0 && c != ERR_EXIST witness -5

  type Faults = nat -> Fault

  ghost predicate Faultless(f: Faults) { forall t: nat :: f(t).Fine? }

  lemma FineAt(f: Faults, t: nat)
    requires Faultless(f)
    ensures f(t).Fine?
  {
  }

  ghost predicate WellFormed(nodes: map<Path, Node>) {
    && [] in nodes && nodes[[]] == Dir
    && forall p :: p in nodes && p != [] ==> p[..|p| - 1] in nodes && nodes[p[..|p| - 1]] == Dir
  }

  /** The textual prefixes that end a nonempty component are cut at these positions. */
  predicate IsCut(path: string, i: nat) {
    0 < i <= |path| && (i == |path| || path[i] == '/') && path[i - 1] != '/'
  }

  /** The nodes below `p`, itself included. */
  ghost function Subtree(nodes: map<Path, Node>, p: Path): set<Path> {
    set q | q in nodes && p <= q
  }

  function Names(nodes: map<Path, Node>, p: Path): set<string> {
    set q | q in nodes && |q| == |p| + 1 && p <= q :: q[|p|]
  }

  /** Every path below `p`, written out from the text `path` of `p`, fits the child path buffer. */
  ghost predicate PathsFit(nodes: map<Path, Node>, p: Path, path: string) {
    forall q :: q in nodes && p <= q ==> |path| + TextLength(q[|p|..]) < CHILD_BUFFER
  }

  /** Entries have proper names. */
  ghost predicate ProperNames(nodes: map<Path, Node>) {
    forall q, k :: q in nodes && 0 <= k < |q| ==> IsName(q[k])
  }

  /** `q` lies below an entry of `p` with one of the names. */
  predicate Below(p: Path, names: set<string>, q: Path) {
    |q| > |p| && p <= q && q[|p|] in names
  }

  /** `now` is `was` without what lies below the entries of `p` with the names. */
  ghost predicate Without(was: map<Path, Node>, now: map<Path, Node>, p: Path, names: set<string>) {
    && (forall q :: q in now <==> q in was && !Below(p, names, q))
    && (forall q :: q in now ==> now[q] == was[q])
  }

  /** `now` is `was` without some of what lies at or below `p`. */
  ghost predicate PrunedBelow(was: map<Path, Node>, now: map<Path, Node>, p: Path) {
    && (forall q :: q in now ==> q in was && now[q] == was[q])
    && (forall q :: q in was && !(p <= q) ==> q in now)
  }

  /** What has gone from the tree at `p`, whose text is `path`, had a path that fits the child path buffer. */
  ghost predicate UnfitStay(was: map<Path, Node>, now: map<Path, Node>, p: Path, path: string) {
    forall q :: q in was && p <= q && q !in now ==> |path| + TextLength(q[|p|..]) < CHILD_BUFFER
  }

  /** Nothing was added or changed. */
  ghost predicate Shrunk(was: map<Path, Node>, now: map<Path, Node>) {
    forall q :: q in now ==> q in was && now[q] == was[q]
  }

  /** Nothing is left at or below `p`. */
  ghost predicate Cleared(now: map<Path, Node>, p: Path) { forall q :: q in now ==> !(p <= q) }

  /**
   What a call on a textual path does to the tree, `gone` being whether it says that it succeeded: it works at and
   below where the path leads when the path could have come from the child path buffer. When it fills that
   buffer, every child path is the path itself again, and a directory with entries stays as it is.
   */
  ghost predicate Acts(was: map<Path, Node>, now: map<Path, Node>, path: string, gone: bool) {
    && Shrunk(was, now)
    && (Resolve(path).None? ==> now == was && !gone)
    && (Resolve(path).Some? ==>
          var p := Resolve(path).value;
          && (|path| < CHILD_BUFFER ==> PrunedBelow(was, now, p) && UnfitStay(was, now, p, path))
          && (|path| == CHILD_BUFFER - 1 && Names(was, p) != {} ==> now == was && !gone)
          && (gone ==> p in was && Cleared(now, p)))
  }

  /** `now` is `was` without exactly the subtree at `p`. */
  ghost predicate Deleted(was: map<Path, Node>, now: map<Path, Node>, p: Path) {
    && PrunedBelow(was, now, p)
    && forall q :: q in now ==> !(p <= q)
  }

  function TextLength(names: Path): nat {
    if names == [] then 0 else TextLength(names[..|names| - 1]) + 1 + |names[|names| - 1]|
  }

  /** The error of looking up a path that is not there: a missing name, or a file where a directory is needed. */
  function LookupError(nodes: map<Path, Node>, p: Path): (code: ErrorCode)
    requires [] in nodes && p !in nodes
    decreases |p|
  {
    var parent := p[..|p| - 1];
    if parent !in nodes then LookupError(nodes, parent)
    else if nodes[parent] == Dir then ERR_NOENT else ERR_NOTDIR
  }

  /** `q` is where one of the prefixes of `path` cut at a position up to `n` leads. */
  ghost predicate Reached(path: string, n: nat, q: Path) {
    exists i: nat :: i <= n && IsCut(path, i) && Resolve(path[..i]) == Some(q)
  }

  /** `now` is `was` with nothing but directories at prefixes of `path` added. */
  ghost predicate GrownBy(was: map<Path, Node>, now: map<Path, Node>, path: string, n: nat) {
    && (forall q :: q in was ==> q in now && now[q] == was[q])
    && (forall q :: q in now && q !in was ==> now[q] == Dir && Reached(path, n, q))
  }

  /** Every prefix cut up to `n` exists. */
  ghost predicate AllReached(nodes: map<Path, Node>, path: string, n: nat) {
    forall i: nat :: i <= n && IsCut(path, i) ==> Resolve(path[..i]).Some? && Resolve(path[..i]).value in nodes
  }

  lemma Grow(was: map<Path, Node>, now: map<Path, Node>, path: string, i: nat, q: Path)
    requires GrownBy(was, now, path, i) && IsCut(path, i) && Resolve(path[..i]) == Some(q)
    requires q !in now
    ensures GrownBy(was, now[q := Dir], path, i)
  {
    assert Reached(path, i, q);
  }

  lemma GrownByNothing(nodes: map<Path, Node>, path: string)
    ensures GrownBy(nodes, nodes, path, 0)
  {
  }

  lemma GrownMonotone(was: map<Path, Node>, now: map<Path, Node>, path: string, n: nat, m: nat)
    requires GrownBy(was, now, path, n) && (n <= m || |path| <= m)
    ensures GrownBy(was, now, path, m)
  {
    forall q | Reached(path, n, q) ensures Reached(path, m, q) {
      var i: nat :| i <= n && IsCut(path, i) && Resolve(path[..i]) == Some(q);
      assert i <= m && IsCut(path, i);
    }
  }

  /** Positions that are no cut add no obligation. */
  lemma AllReachedStep(nodes: map<Path, Node>, path: string, i: nat)
    requires i > 0 ==> AllReached(nodes, path, i - 1)
    requires IsCut(path, i) ==> Resolve(path[..i]).Some? && Resolve(path[..i]).value in nodes
    ensures AllReached(nodes, path, i)
  {
  }

  lemma AllReachedAt(nodes: map<Path, Node>, path: string, i: nat)
    requires AllReached(nodes, path, |path|) && IsCut(path, i)
    ensures Resolve(path[..i]).Some? && Resolve(path[..i]).value in nodes
  {
  }

  lemma CutTest(path: string, i: nat)
    requires i <= |path|
    ensures IsCut(path, i) <==> i > 0 && (i == |path| || path[i] == '/') && path[i - 1] != '/'
  {
  }

  /** Copies a prefix of the path into the fixed-size buffer and terminates it. */
  method CopyPrefix(temp: array<char>, path: string, i: nat)
    requires i <= |path| && i < temp.Length
    modifies temp
    ensures temp[..i] == path[..i] && temp[i] == '\0'
  {
    for k := 0 to i
      invariant temp[..k] == path[..k]
    {
      temp[k] := path[k];
    }
    temp[i] := '\0';
  }

  lemma FileHasNoEntries(nodes: map<Path, Node>, p: Path)
    requires WellFormed(nodes) && p in nodes
    ensures nodes[p] != Dir ==> Names(nodes, p) == {}
  {
    forall q | q in nodes && |q| == |p| + 1 && p <= q ensures nodes[p] == Dir {
      assert q[..|q| - 1] == p;
    }
  }

  lemma {:induction false} TextLengthHead(names: Path)
    requires names != []
    ensures TextLength(names) == 1 + |names[0]| + TextLength(names[1..])
  {
    if |names| > 1 {
      var init := names[..|names| - 1];
      TextLengthHead(init);
      assert init[1..] == names[1..][..|names| - 2];
    }
  }

  /** A path below a child is as long written out from the child as from the directory. */
  lemma ChildText(p: Path, path: string, name: string, q: Path)
    requires p + [name] <= q
    ensures p <= q && |path + "/" + name| + TextLength(q[|p| + 1..]) == |path| + TextLength(q[|p|..])
  {
    var child := p + [name];
    assert q[..|child|] == child;
    assert p == child[..|p|] == q[..|p|];
    TextLengthHead(q[|p|..]);
    assert q[|p|..][1..] == q[|p| + 1..];
    assert q[|p|] == child[|p|] == name;
  }

  /** The child's text fits its buffer, and so does everything below the child. */
  lemma ChildFits(was: map<Path, Node>, mid: map<Path, Node>, p: Path, path: string, name: string)
    requires PathsFit(was, p, path) && p + [name] in was && mid.Keys <= was.Keys
    ensures |path + "/" + name| < CHILD_BUFFER
    ensures PathsFit(mid, p + [name], path + "/" + name)
  {
    var child := p + [name];
    forall q | q in was && child <= q ensures |path + "/" + name| + TextLength(q[|child|..]) < CHILD_BUFFER {
      ChildText(p, path, name, q);
    }
    assert child <= child && child[|child|..] == [];
  }

  /** What goes below a child goes below the directory. */
  lemma Lift(was: map<Path, Node>, now: map<Path, Node>, p: Path, path: string, name: string)
    requires PrunedBelow(was, now, p + [name]) && UnfitStay(was, now, p + [name], path + "/" + name)
    ensures PrunedBelow(was, now, p) && UnfitStay(was, now, p, path)
  {
    forall q | q in was && q !in now ensures p <= q && |path| + TextLength(q[|p|..]) < CHILD_BUFFER {
      ChildText(p, path, name, q);
    }
  }

  lemma PrunedTwice(was: map<Path, Node>, mid: map<Path, Node>, now: map<Path, Node>, p: Path, path: string)
    requires PrunedBelow(was, mid, p) && UnfitStay(was, mid, p, path) && PrunedBelow(mid, now, p) && UnfitStay(mid, now, p, path)
    ensures PrunedBelow(was, now, p) && UnfitStay(was, now, p, path)
  {
    hide TextLength;
  }

  lemma NotPruned(nodes: map<Path, Node>, p: Path, path: string)
    ensures PrunedBelow(nodes, nodes, p) && UnfitStay(nodes, nodes, p, path) && Shrunk(nodes, nodes)
  {
  }

  /** With an entry's whole subtree gone, one more name is done. */
  lemma EntryDeleted(was: map<Path, Node>, mid: map<Path, Node>, now: map<Path, Node>, p: Path, done: set<string>, name: string)
    requires Without(was, mid, p, done) && Deleted(mid, now, p + [name])
    ensures Without(was, now, p, done + {name})
  {
    forall q ensures Below(p, done + {name}, q) <==> Below(p, done, q) || p + [name] <= q {
      if |q| > |p| && p <= q && q[|p|] == name {
        assert q[..|p| + 1] == p + [name];
      }
      if p + [name] <= q {
        assert q[..|p| + 1] == p + [name];
        assert q[|p|] == name && q[..|p|] == p;
      }
    }
  }

  lemma ChildBelow(nodes: map<Path, Node>, p: Path, name: string)
    ensures forall q :: q in nodes && p + [name] <= q ==> p <= q
  {
    forall q | q in nodes && p + [name] <= q ensures p <= q {
      assert q[..|p|] == q[..|p| + 1][..|p|] == p;
    }
  }

  lemma {:induction false} AncestorIn(nodes: map<Path, Node>, q: Path, n: nat)
    requires WellFormed(nodes) && q in nodes && n <= |q|
    ensures q[..n] in nodes
    decreases |q|
  {
    if n == |q| {
      assert q[..n] == q;
    } else {
      AncestorIn(nodes, q[..|q| - 1], n);
      assert q[..|q| - 1][..n] == q[..n];
    }
  }

  /** Everything strictly below a directory is below one of its entries. */
  lemma EntriesCover(nodes: map<Path, Node>, p: Path)
    requires WellFormed(nodes)
    ensures forall q :: q in nodes && p <= q && q != p ==> Below(p, Names(nodes, p), q)
  {
    forall q | q in nodes && p <= q && q != p ensures Below(p, Names(nodes, p), q) {
      AncestorIn(nodes, q, |p| + 1);
      var e := q[..|p| + 1];
      assert e in nodes && |e| == |p| + 1 && p <= e && e[|p|] == q[|p|];
    }
  }

  /** With every entry done, nothing but the directory itself is left of its subtree. */
  lemma EntriesDone(was: map<Path, Node>, mid: map<Path, Node>, p: Path)
    requires WellFormed(was) && Without(was, mid, p, Names(was, p))
    ensures Names(mid, p) == {}
    ensures forall q :: q in mid && p <= q ==> q == p
    ensures p in was ==> p in mid
  {
    EntriesCover(was, p);
  }

  lemma SmallerSet(a: set<Path>, b: set<Path>)
    requires a < b
    ensures |a| < |b|
  {
    assert b == a + (b - a);
    assert b - a != {};
  }

  /** A child's subtree is smaller than the directory's. */
  lemma ChildSmaller(was: map<Path, Node>, mid: map<Path, Node>, p: Path, name: string)
    requires p in was && mid.Keys <= was.Keys
    ensures |Subtree(mid, p + [name])| < |Subtree(was, p)|
  {
    ChildBelow(was, p, name);
    assert p in Subtree(was, p) && p !in Subtree(mid, p + [name]);
    SmallerSet(Subtree(mid, p + [name]), Subtree(was, p));
  }

  lemma WithoutNothing(nodes: map<Path, Node>, p: Path)
    ensures Without(nodes, nodes, p, {})
  {
  }

  lemma NameIsEntry(nodes: map<Path, Node>, p: Path, name: string)
    requires name in Names(nodes, p)
    ensures p + [name] in nodes
  {
    var q :| q in nodes && |q| == |p| + 1 && p <= q && q[|p|] == name;
    assert q == p + [name];
  }

  /** What a directory deletion can act on. */
  predicate IsDirectory(nodes: map<Path, Node>, path: string) {
    path != "" && Resolve(path).Some? && Resolve(path).value in nodes && nodes[Resolve(path).value] == Dir
  }

  /** `now` is `was` without `p`, which was there and had no entries. */
  ghost predicate OneGone(was: map<Path, Node>, now: map<Path, Node>, p: Path) {
    p in was && p != [] && Names(was, p) == {} && now == was - {p}
  }

  /** Taking away a node without entries clears the tree at that node. */
  lemma OneCleared(was: map<Path, Node>, now: map<Path, Node>, p: Path)
    requires WellFormed(was) && OneGone(was, now, p)
    ensures Cleared(now, p)
  {
    EntriesCover(was, p);
  }

  /** `lfs_remove` acts on where its path leads. */
  lemma RemoveActs(was: map<Path, Node>, now: map<Path, Node>, path: string, gone: bool)
    requires WellFormed(was) && (gone ==> now != was)
    requires now == was || (Resolve(path).Some? && OneGone(was, now, Resolve(path).value))
    ensures Acts(was, now, path, gone)
  {
    hide Resolve, WellFormed, Names;
    if now != was {
      OneCleared(was, now, Resolve(path).value);
      OneFits(was, now, Resolve(path).value, path);
    } else if Resolve(path).Some? {
      NotPruned(was, Resolve(path).value, path);
    }
  }

  lemma OneFits(was: map<Path, Node>, now: map<Path, Node>, p: Path, path: string)
    requires now == was - {p}
    ensures PrunedBelow(was, now, p) && (|path| < CHILD_BUFFER ==> UnfitStay(was, now, p, path))
  {
    assert p[|p|..] == [];
  }

  /** Where the text of an entry that does not fit leads: to a sibling, the directory itself, its parent or nowhere. */
  lemma UnfitChild(path: string, name: string) returns (part: string)
    requires Resolve(path).Some? && IsName(name) && |path| < CHILD_BUFFER - 1 && |path| + 1 + |name| >= CHILD_BUFFER
    ensures '/' !in part && |part| < |name| && ChildPath(path, name) == path + "/" + part
    ensures |ChildPath(path, name)| == CHILD_BUFFER - 1
  {
    part := name[..CHILD_BUFFER - 2 - |path|];
  }

  lemma HasEntry(nodes: map<Path, Node>, p: Path, name: string)
    requires p + [name] in nodes
    ensures name in Names(nodes, p)
  {
    var q := p + [name];
    assert |q| == |p| + 1 && p <= q && q[|p|] == name;
  }

  /** An entry that fits is what its call acts on. */
  lemma FitActs(was: map<Path, Node>, now: map<Path, Node>, p: Path, path: string, name: string, gone: bool)
    requires Resolve(path) == Some(p) && IsName(name) && |path| + 1 + |name| < CHILD_BUFFER
    requires Acts(was, now, ChildPath(path, name), gone)
    ensures Resolve(ChildPath(path, name)) == Some(p + [name])
    ensures PrunedBelow(was, now, p) && UnfitStay(was, now, p, path)
    ensures gone ==> Deleted(was, now, p + [name])
  {
    ResolveChild(path, name);
    hide Resolve, UnfitStay, Names;
    assert ChildPath(path, name) == path + "/" + name;
    Lift(was, now, p, path, name);
  }

  /** An entry that does not fit: the call leaves the tree as it is or acts on a sibling that fits. */
  lemma UnfitActs(was: map<Path, Node>, now: map<Path, Node>, p: Path, path: string, name: string, gone: bool)
    requires WellFormed(was) && Resolve(path) == Some(p) && IsName(name) && p + [name] in was
    requires |path| < CHILD_BUFFER - 1 && |path| + 1 + |name| >= CHILD_BUFFER
    requires Acts(was, now, ChildPath(path, name), gone)
    ensures PrunedBelow(was, now, p) && UnfitStay(was, now, p, path)
  {
    hide *;
    var part := UnfitChild(path, name);
    CutChild(path, part);
    NotPruned(was, p, path);
    var text := path + "/" + part;
    if part == "" || part == "." {
      HasEntry(was, p, name);
      FullStays(was, now, text, p, gone);
    } else if part == ".." {
      if p == [] {
        NowhereStays(was, now, text, gone);
      } else {
        HasParent(was, p, name);
        FullStays(was, now, text, p[..|p| - 1], gone);
      }
    } else {
      ActsAt(was, now, text, p + [part], gone);
      Lift(was, now, p, path, part);
    }
  }

  lemma FullStays(was: map<Path, Node>, now: map<Path, Node>, text: string, q: Path, gone: bool)
    requires Acts(was, now, text, gone) && Resolve(text) == Some(q) && |text| == CHILD_BUFFER - 1 && Names(was, q) != {}
    ensures now == was
  {
    hide Resolve, Names;
  }

  lemma NowhereStays(was: map<Path, Node>, now: map<Path, Node>, text: string, gone: bool)
    requires Acts(was, now, text, gone) && Resolve(text) == None
    ensures now == was
  {
    hide Resolve, Names;
  }

  lemma ActsAt(was: map<Path, Node>, now: map<Path, Node>, text: string, q: Path, gone: bool)
    requires Acts(was, now, text, gone) && Resolve(text) == Some(q) && |text| < CHILD_BUFFER
    ensures PrunedBelow(was, now, q) && UnfitStay(was, now, q, text)
  {
    hide Resolve, Names, PrunedBelow, UnfitStay;
  }

  lemma HasParent(nodes: map<Path, Node>, p: Path, name: string)
    requires WellFormed(nodes) && p + [name] in nodes && p != []
    ensures Names(nodes, p[..|p| - 1]) != {}
  {
    var up := p[..|p| - 1];
    AncestorIn(nodes, p + [name], |p|);
    assert (p + [name])[..|p|] == p == up + [p[|p| - 1]];
    HasEntry(nodes, up, p[|p| - 1]);
  }

  /** When the path fills the buffer, the text of every entry is the path itself. */
  lemma FullActs(was: map<Path, Node>, now: map<Path, Node>, p: Path, path: string, name: string, gone: bool)
    requires Resolve(path) == Some(p) && p + [name] in was && |path| == CHILD_BUFFER - 1
    requires Acts(was, now, ChildPath(path, name), gone)
    ensures now == was && !gone
  {
    HasEntry(was, p, name);
    hide Resolve, Names;
    assert ChildPath(path, name) == path;
  }

  /** What deleting an entry does to its directory, whatever the length of the path. */
  lemma EntryActs(was: map<Path, Node>, now: map<Path, Node>, p: Path, path: string, name: string, gone: bool)
    requires WellFormed(was) && Resolve(path) == Some(p) && IsName(name) && p + [name] in was
    requires Acts(was, now, ChildPath(path, name), gone)
    ensures Shrunk(was, now)
    ensures |path| < CHILD_BUFFER ==> PrunedBelow(was, now, p) && UnfitStay(was, now, p, path)
    ensures |path| == CHILD_BUFFER - 1 ==> now == was && !gone
    ensures |path| + 1 + |name| < CHILD_BUFFER && gone ==> Deleted(was, now, p + [name])
  {
    assert Shrunk(was, now);
    hide *;
    if |path| + 1 + |name| < CHILD_BUFFER {
      FitActs(was, now, p, path, name, gone);
    } else if |path| < CHILD_BUFFER - 1 {
      UnfitActs(was, now, p, path, name, gone);
    } else if |path| == CHILD_BUFFER - 1 {
      FullActs(was, now, p, path, name, gone);
      NotPruned(was, p, path);
    }
  }

  /** The removal of the directory after the loop over its entries. */
  lemma RemovedActs(was: map<Path, Node>, mid: map<Path, Node>, now: map<Path, Node>, p: Path, path: string, gone: bool)
    requires Resolve(path) == Some(p) && p in was && Shrunk(was, mid) && Acts(mid, now, path, gone)
    requires |path| < CHILD_BUFFER ==> PrunedBelow(was, mid, p) && UnfitStay(was, mid, p, path)
    requires |path| == CHILD_BUFFER - 1 ==> mid == was
    ensures Acts(was, now, path, gone)
  {
    hide Resolve, UnfitStay, PrunedBelow, Names, Cleared;
    if |path| < CHILD_BUFFER {
      PrunedTwice(was, mid, now, p, path);
    }
  }

  /** A call that ends before the removal. */
  lemma UnremovedActs(was: map<Path, Node>, now: map<Path, Node>, p: Path, path: string)
    requires Resolve(path) == Some(p) && Shrunk(was, now)
    requires |path| < CHILD_BUFFER ==> PrunedBelow(was, now, p) && UnfitStay(was, now, p, path)
    requires |path| == CHILD_BUFFER - 1 ==> now == was
    ensures Acts(was, now, path, false)
  {
    hide Resolve, UnfitStay, PrunedBelow, Names;
  }

  lemma NothingActs(nodes: map<Path, Node>, path: string)
    ensures Acts(nodes, nodes, path, false)
  {
    hide Resolve, Names;
    if Resolve(path).Some? {
      NotPruned(nodes, Resolve(path).value, path);
    }
  }

  /** If all is gone, all of it fitted. */
  lemma GoneFits(was: map<Path, Node>, now: map<Path, Node>, p: Path, path: string)
    requires UnfitStay(was, now, p, path) && Cleared(now, p)
    ensures PathsFit(was, p, path)
  {
  }

  /** A directory can be made at the path, or something is there already. */
  predicate CanMake(nodes: map<Path, Node>, text: string) {
    Resolve(text).Some? &&
    var p := Resolve(text).value;
    || p in nodes
    || (p != [] && p[..|p| - 1] in nodes && nodes[p[..|p| - 1]] == Dir && |p[|p| - 1]| <= NAME_MAX)
  }

  /** `now` is `was` with a directory where the path leads, which was free. */
  predicate Made(was: map<Path, Node>, now: map<Path, Node>, text: string) {
    Resolve(text).Some? && Resolve(text).value !in was && now == was[Resolve(text).value := Dir]
  }

  /** There is a prefix at which nothing can be made although all shorter ones are there. */
  ghost predicate Blocked(nodes: map<Path, Node>, path: string) {
    exists i: nat :: IsCut(path, i) && AllReached(nodes, path, i - 1) && !CanMake(nodes, path[..i])
  }

  /** What `lfs_remove` takes away: a file or a directory without entries, but not the root. */
  predicate Removable(nodes: map<Path, Node>, p: Path) {
    p in nodes && p != [] && (nodes[p] != Dir || Names(nodes, p) == {})
  }

  /** An entry whose deletion cannot go wrong but for a fault. */
  ghost predicate EntrySmooth(nodes: map<Path, Node>, p: Path, path: string, name: string, depth: nat) {
    && |path| + 1 + |name| < CHILD_BUFFER && PathsFit(nodes, p + [name], path + "/" + name)
    && depth >= |Subtree(nodes, p + [name])|
  }

  lemma IsDirectoryAt(nodes: map<Path, Node>, path: string)
    requires IsDirectory(nodes, path)
    ensures path != "" && Resolve(path).Some? && Resolve(path).value in nodes
  {
  }

  /** A tree that has not been touched yet, and a directory's subtree holds the directory. */
  lemma AtFirst(nodes: map<Path, Node>, path: string)
    ensures Acts(nodes, nodes, path, false)
    ensures IsDirectory(nodes, path) ==>
              |Subtree(nodes, Resolve(path).value)| > 0 && PrunedBelow(nodes, nodes, Resolve(path).value)
  {
    NothingActs(nodes, path);
    hide Resolve;
    if IsDirectory(nodes, path) {
      assert Resolve(path).value in Subtree(nodes, Resolve(path).value);
    }
  }

  /** What a call on a path says about the tree below it. */
  lemma ActsBelow(was: map<Path, Node>, now: map<Path, Node>, path: string, p: Path, gone: bool)
    requires Acts(was, now, path, gone) && Resolve(path) == Some(p) && |path| < CHILD_BUFFER
    ensures PrunedBelow(was, now, p) && (gone ==> Deleted(was, now, p) && PathsFit(was, p, path))
  {
    hide Resolve, UnfitStay, PathsFit;
    if gone {
      GoneFits(was, now, p, path);
    }
  }

  lemma ProperEntry(nodes: map<Path, Node>, p: Path, name: string)
    requires ProperNames(nodes) && p + [name] in nodes
    ensures IsName(name)
  {
    assert (p + [name])[|p|] == name;
  }

  lemma StillProper(was: map<Path, Node>, now: map<Path, Node>, path: string, gone: bool)
    requires ProperNames(was) && Acts(was, now, path, gone)
    ensures ProperNames(now)
  {
    assert Shrunk(was, now);
    hide Acts, IsName;
  }

  /** An entry that was not deleted yet is there. */
  lemma StillThere(was: map<Path, Node>, now: map<Path, Node>, p: Path, done: set<string>, name: string)
    requires Without(was, now, p, done) && name in Names(was, p) && name !in done
    ensures p + [name] in was && p + [name] in now && Shrunk(was, now)
  {
    NameIsEntry(was, p, name);
  }

  lemma EntryGoes(was: map<Path, Node>, now: map<Path, Node>, p: Path, path: string, name: string, depth: nat)
    requires PathsFit(was, p, path) && p in was && p + [name] in was && Shrunk(was, now) && depth + 1 >= |Subtree(was, p)|
    ensures EntrySmooth(now, p, path, name, depth)
  {
    assert now.Keys <= was.Keys;
    ChildFits(was, now, p, path, name);
    ChildSmaller(was, now, p, name);
  }

  lemma SmoothEntry(nodes: map<Path, Node>, p: Path, path: string, name: string, depth: nat)
    requires WellFormed(nodes) && Resolve(path) == Some(p) && IsName(name) && p + [name] in nodes
    requires path != "" && EntrySmooth(nodes, p, path, name, depth)
    ensures var text := ChildPath(path, name);
      && Resolve(text) == Some(p + [name]) && |text| < CHILD_BUFFER && PathsFit(nodes, p + [name], text)
      && (nodes[p + [name]] == Dir ==> IsDirectory(nodes, text) && depth >= |Subtree(nodes, p + [name])|)
      && (nodes[p + [name]] != Dir ==> Removable(nodes, p + [name]))
  {
    ResolveChild(path, name);
    hide Resolve, PathsFit, Subtree;
    assert ChildPath(path, name) == path + "/" + name;
  }

  lemma EntryPruned(was: map<Path, Node>, mid: map<Path, Node>, now: map<Path, Node>, p: Path, path: string)
    requires Shrunk(was, mid) && Shrunk(mid, now)
    requires |path| < CHILD_BUFFER ==> PrunedBelow(was, mid, p) && UnfitStay(was, mid, p, path)
    requires |path| < CHILD_BUFFER ==> PrunedBelow(mid, now, p) && UnfitStay(mid, now, p, path)
    ensures Shrunk(was, now)
    ensures |path| < CHILD_BUFFER ==> PrunedBelow(was, now, p) && UnfitStay(was, now, p, path)
  {
    hide PrunedBelow, UnfitStay;
    if |path| < CHILD_BUFFER {
      PrunedTwice(was, mid, now, p, path);
    }
  }

  /** A directory whose entries are gone can be removed. */
  lemma EmptiedGoes(was: map<Path, Node>, mid: map<Path, Node>, p: Path)
    requires WellFormed(was) && Without(was, mid, p, Names(was, p)) && p in was && p != []
    ensures Removable(mid, p)
  {
    EntriesDone(was, mid, p);
  }

  class Tree {
    var nodes: map<Path, Node>

    /** `lfs_mkdir` on a path with at least one component. */
    method MakeDir(path: string, f: Fault) returns (ret: int)
      requires WellFormed(nodes)
      modifies this
      ensures WellFormed(nodes) && ret <= 0
      ensures ret == 0 || ret == ERR_EXIST ==> Resolve(path).Some? && Resolve(path).value in nodes
      ensures !f.Refused? && Resolve(path).Some? && Resolve(path).value in old(nodes) ==> ret == ERR_EXIST
      ensures f.Fine? ==> (ret == 0 || ret == ERR_EXIST <==> CanMake(old(nodes), path))
      ensures nodes == old(nodes) || Made(old(nodes), nodes, path)
      ensures ret == 0 ==> Made(old(nodes), nodes, path)
      ensures ret == ERR_EXIST || (f.Fine? && ret != 0) ==> nodes == old(nodes)
    {
      if f.Refused? {
        return f.code;
      }
      var target := Resolve(path);
      if target.None? {
        return ERR_INVAL;
      }
      var p := target.value;
      if p in nodes {
        return ERR_EXIST;
      }
      var parent := p[..|p| - 1];
      if parent !in nodes || nodes[parent] != Dir {
        return LookupError(nodes, p);
      }
      if |p[|p| - 1]| > NAME_MAX {
        return ERR_NAMETOOLONG;
      }
      nodes := nodes[p := Dir];
      return if f.Torn? then f.code else 0;
    }

    /** Makes sure that the prefix cut at `i` exists. */
    method Visit(temp: array<char>, path: string, i: nat, f: Fault, ghost was: map<Path, Node>) returns (ret: int)
      requires WellFormed(nodes) && IsCut(path, i) && i < temp.Length
      requires GrownBy(was, nodes, path, i) && AllReached(nodes, path, i - 1)
      modifies this, temp
      ensures WellFormed(nodes) && ret <= 0 && GrownBy(was, nodes, path, i)
      ensures ret == 0 || ret == ERR_EXIST ==> AllReached(nodes, path, i)
      ensures ret != 0 && ret != ERR_EXIST ==> GrownBy(was, nodes, path, |path|)
      ensures AllReached(was, path, |path|) && old(nodes) == was ==> nodes == was && (!f.Refused? ==> ret == ERR_EXIST)
      ensures f.Fine? && ret != 0 && ret != ERR_EXIST ==> Blocked(nodes, path)
    {
      hide Resolve, WellFormed, CanMake;
      if AllReached(was, path, |path|) {
        AllReachedAt(was, path, i);
      }
      ghost var before := nodes;
      CopyPrefix(temp, path, i);
      ret := MakeDir(temp[..i], f);
      if nodes != before {
        Grow(was, before, path, i, Resolve(path[..i]).value);
      }
      GrownMonotone(was, nodes, path, i, |path|);
      assert path[..i] == temp[..i];
    }

    /** The loop over the path's characters; `last` follows the last slash seen. */
    method VisitAll(temp: array<char>, path: string, f: Faults) returns (ret: int)
      requires WellFormed(nodes) && 0 < |path| < temp.Length
      modifies this, temp
      ensures WellFormed(nodes) && ret <= 0 && GrownBy(old(nodes), nodes, path, |path|)
      ensures ret == 0 ==> AllReached(nodes, path, |path|)
      ensures AllReached(old(nodes), path, |path|) ==> nodes == old(nodes) && (Faultless(f) ==> ret == 0)
      ensures Faultless(f) && ret < 0 ==> Blocked(nodes, path)
    {
      GrownByNothing(nodes, path);
      hide *;
      ghost var was, existed := nodes, AllReached(nodes, path, |path|);
      var i, last := 0, 0;
      if path[0] == '/' {
        last := 1;
      }
      while i <= |path|
        invariant 0 <= i <= |path| + 1 && WellFormed(nodes)
        invariant if i == 0 then last == if path[0] == '/' then 1 else 0
                  else i <= |path| ==> last <= i && (last < i <==> path[i - 1] != '/')
        invariant GrownBy(was, nodes, path, i)
        invariant i > 0 ==> AllReached(nodes, path, i - 1)
        invariant existed ==> nodes == was
      {
        CutTest(path, i);
        if i == |path| || path[i] == '/' {
          if i > last {
            if Faultless(f) {
              FineAt(f, i);
            }
            ret := Visit(temp, path, i, f(i), was);
            if ret != 0 && ret != ERR_EXIST {
              return ret;
            }
          }
          last := i + 1;
        }
        if !IsCut(path, i) {
          AllReachedStep(nodes, path, i);
        }
        GrownMonotone(was, nodes, path, i, i + 1);
        i := i + 1;
      }
      GrownMonotone(was, nodes, path, i, |path|);
      return 0;
    }

    /** `createDirectory`. */
    method CreateDirectory(path: string, f: Faults) returns (ret: int)
      requires WellFormed(nodes)
      modifies this
      ensures WellFormed(nodes) && ret <= 0
      ensures path == "" || |path| >= PATH_BUFFER ==> ret < 0 && nodes == old(nodes)
      ensures GrownBy(old(nodes), nodes, path, |path|)
      ensures ret == 0 ==> AllReached(nodes, path, |path|)
      ensures AllReached(old(nodes), path, |path|) ==> nodes == old(nodes)
      ensures 0 < |path| < PATH_BUFFER && Faultless(f) && AllReached(old(nodes), path, |path|) ==> ret == 0
      ensures 0 < |path| < PATH_BUFFER && Faultless(f) && ret < 0 ==> Blocked(nodes, path)
    {
      if path == "" {
        return ERR_INVAL;
      }
      if |path| >= PATH_BUFFER {
        return ERR_NAMETOOLONG;
      }
      var temp := new char[PATH_BUFFER];
      ret := VisitAll(temp, path, f);
    }

    /** `lfs_remove`. */
    method Remove(path: string, f: Fault) returns (ret: int)
      requires WellFormed(nodes)
      modifies this
      ensures WellFormed(nodes) && ret <= 0
      ensures nodes == old(nodes) || (Resolve(path).Some? && OneGone(old(nodes), nodes, Resolve(path).value))
      ensures ret == 0 ==> nodes != old(nodes)
      ensures f.Fine? && Resolve(path).Some? && Removable(old(nodes), Resolve(path).value) ==> ret == 0
    {
      if f.Refused? {
        return f.code;
      }
      if Resolve(path).None? {
        return ERR_INVAL;
      }
      var p := Resolve(path).value;
      if p !in nodes {
        return LookupError(nodes, p);
      }
      if p == [] {
        return ERR_INVAL;
      }
      FileHasNoEntries(nodes, p);
      if nodes[p] == Dir && Names(nodes, p) != {} {
        return ERR_NOTEMPTY;
      }
      assert forall q :: q in nodes && q != [] && q[..|q| - 1] == p ==> q[|p|] in Names(nodes, p);
      nodes := nodes - {p};
      return if f.Torn? then f.code else 0;
    }

    /**
     `deleteDirectory`, with a stack that has room for `depth` nested calls; `overrun` is whether it ran out.
     The directory handle yields the entries present when it was opened that are still there, each once and
     in some order; a failed read of the handle ends the loop.
     */
    method DeleteDirectory(path: string, depth: nat, f: Faults, t: nat) returns (ret: int, overrun: bool, t': nat)
      requires WellFormed(nodes) && ProperNames(nodes)
      modifies this
      ensures WellFormed(nodes) && ProperNames(nodes) && ret <= 0
      ensures Acts(old(nodes), nodes, path, ret == 0 && !overrun)
      ensures !IsDirectory(old(nodes), path) ==> nodes == old(nodes) && (overrun || ret < 0)
      ensures IsDirectory(old(nodes), path) && |path| < CHILD_BUFFER ==> PrunedBelow(old(nodes), nodes, Resolve(path).value)
      ensures ret == 0 && !overrun && |path| < CHILD_BUFFER ==> Deleted(old(nodes), nodes, Resolve(path).value)
      ensures Faultless(f) && IsDirectory(old(nodes), path) && Resolve(path).value != [] && |path| < CHILD_BUFFER
              && depth >= |Subtree(old(nodes), Resolve(path).value)| ==>
                (ret == 0 && !overrun <==> PathsFit(old(nodes), Resolve(path).value, path))
      decreases depth, 0
    {
      hide *;
      ghost var was := nodes;
      AtFirst(was, path);
      ret, overrun, t' := 0, depth == 0, t;
      if overrun {
        return;
      }
      ret, t' := OpenDirectory(path, f(t)), t + 1;
      if Faultless(f) {
        FineAt(f, t);
      }
      if ret < 0 {
        return;
      }
      IsDirectoryAt(was, path);
      var p := Resolve(path).value;
      ret, overrun, t' := DeleteOpened(path, p, depth - 1, f, t');
      if |path| < CHILD_BUFFER {
        ActsBelow(was, nodes, path, p, ret == 0 && !overrun);
      }
    }

    /** `lfs_dir_open`. */
    function OpenDirectory(path: string, f: Fault): (code: int)
      requires WellFormed(nodes)
      reads this
      ensures code <= 0
      ensures code == 0 <==> f.Fine? && IsDirectory(nodes, path)
    {
      if path == "" || Resolve(path).None? then ERR_INVAL
      else if !f.Fine? then f.code
      else if Resolve(path).value !in nodes then LookupError(nodes, Resolve(path).value)
      else if nodes[Resolve(path).value] != Dir then ERR_NOTDIR
      else 0
    }

    /** What `deleteDirectory` does once the directory is open. */
    method DeleteOpened(path: string, p: Path, depth: nat, f: Faults, t: nat) returns (ret: int, overrun: bool, t': nat)
      requires WellFormed(nodes) && ProperNames(nodes)
      requires path != "" && Resolve(path) == Some(p) && p in nodes
      modifies this
      ensures WellFormed(nodes) && ProperNames(nodes) && ret <= 0
      ensures Acts(old(nodes), nodes, path, ret == 0 && !overrun)
      ensures Faultless(f) && p != [] && PathsFit(old(nodes), p, path) && depth + 1 >= |Subtree(old(nodes), p)| ==>
                ret == 0 && !overrun
      decreases depth, 3
    {
      hide *;
      ghost var was := nodes;
      ret, overrun, t' := DeleteEntries(path, p, depth, f, t);
      ghost var mid := nodes;
      if overrun || ret < 0 {
        UnremovedActs(was, mid, p, path);
        return;
      }
      if Without(was, mid, p, Names(was, p)) && p != [] {
        EmptiedGoes(was, mid, p);
      }
      if Faultless(f) {
        FineAt(f, t');
      }
      ret := Remove(path, f(t'));
      t' := t' + 1;
      RemoveActs(mid, nodes, path, ret == 0);
      RemovedActs(was, mid, nodes, p, path, ret == 0);
      StillProper(mid, nodes, path, ret == 0);
    }

    /** The loop over the entries. */
    method DeleteEntries(path: string, p: Path, depth: nat, f: Faults, t: nat) returns (ret: int, overrun: bool, t': nat)
      requires WellFormed(nodes) && ProperNames(nodes)
      requires path != "" && Resolve(path) == Some(p) && p in nodes
      modifies this
      ensures WellFormed(nodes) && ProperNames(nodes) && ret <= 0 && Shrunk(old(nodes), nodes)
      ensures |path| < CHILD_BUFFER ==> PrunedBelow(old(nodes), nodes, p) && UnfitStay(old(nodes), nodes, p, path)
      ensures |path| == CHILD_BUFFER - 1 ==> nodes == old(nodes)
      ensures Faultless(f) && PathsFit(old(nodes), p, path) && depth + 1 >= |Subtree(old(nodes), p)| ==>
                ret == 0 && !overrun && Without(old(nodes), nodes, p, Names(old(nodes), p))
      decreases depth, 2
    {
      hide *;
      ghost var was, done, smooth := nodes, {}, Faultless(f) && PathsFit(nodes, p, path) && depth + 1 >= |Subtree(nodes, p)|;
      var unread := Names(nodes, p);
      WithoutNothing(was, p);
      NotPruned(was, p, path);
      ret, overrun, t' := 0, false, t;
      while unread != {}
        invariant WellFormed(nodes) && ProperNames(nodes) && Shrunk(was, nodes)
        invariant |path| < CHILD_BUFFER ==> PrunedBelow(was, nodes, p) && UnfitStay(was, nodes, p, path)
        invariant |path| == CHILD_BUFFER - 1 ==> nodes == was
        invariant done + unread == Names(was, p) && done !! unread && ret == 0 && !overrun
        invariant smooth ==> Without(was, nodes, p, done)
        decreases unread
      {
        var name :| name in unread;
        unread := unread - {name};
        if smooth {
          StillThere(was, nodes, p, done, name);
          FineAt(f, t');
          EntryGoes(was, nodes, p, path, name, depth);
        }
        if p + [name] in nodes {
          t' := t' + 1;
          if !f(t' - 1).Fine? {
            return 0, false, t';
          }
          ghost var mid := nodes;
          ret, overrun, t' := DeleteEntry(path, p, name, depth, f, t');
          EntryPruned(was, mid, nodes, p, path);
          if overrun || ret < 0 {
            return;
          }
          if smooth {
            EntryDeleted(was, mid, nodes, p, done, name);
          }
        }
        done := done + {name};
      }
    }

    /** Deletes one entry: a subdirectory recursively, a file at once. */
    method DeleteEntry(path: string, p: Path, name: string, depth: nat, f: Faults, t: nat) returns (ret: int, overrun: bool, t': nat)
      requires WellFormed(nodes) && ProperNames(nodes)
      requires path != "" && Resolve(path) == Some(p) && p + [name] in nodes
      modifies this
      ensures WellFormed(nodes) && ProperNames(nodes) && ret <= 0 && Shrunk(old(nodes), nodes)
      ensures |path| < CHILD_BUFFER ==> PrunedBelow(old(nodes), nodes, p) && UnfitStay(old(nodes), nodes, p, path)
      ensures |path| == CHILD_BUFFER - 1 ==> nodes == old(nodes) && (ret < 0 || overrun)
      ensures |path| + 1 + |name| < CHILD_BUFFER && ret == 0 && !overrun ==> Deleted(old(nodes), nodes, p + [name])
      ensures Faultless(f) && EntrySmooth(old(nodes), p, path, name, depth) ==> ret == 0 && !overrun
      decreases depth, 1
    {
      hide *;
      var child, childPath := p + [name], ChildPath(path, name);
      ghost var was := nodes;
      ProperEntry(was, p, name);
      if Faultless(f) && EntrySmooth(was, p, path, name, depth) {
        FineAt(f, t);
        SmoothEntry(was, p, path, name, depth);
      }
      if nodes[child] == Dir {
        ret, overrun, t' := DeleteDirectory(childPath, depth, f, t);
      } else {
        ret := Remove(childPath, f(t));
        overrun, t' := false, t + 1;
        RemoveActs(was, nodes, childPath, ret == 0);
        StillProper(was, nodes, childPath, ret == 0);
      }
      EntryActs(was, nodes, p, path, name, ret == 0 && !overrun);
    }
  }

  /** After a successful creation a prefix names a directory unless it named a file before. */
  lemma CreatedIsDirectory(was: map<Path, Node>, now: map<Path, Node>, path: string, i: nat)
    requires GrownBy(was, now, path, |path|) && AllReached(now, path, |path|) && IsCut(path, i)
    ensures var q := Resolve(path[..i]).value;
            now[q] == Dir <==> !(q in was && was[q].File?)
  {
    AllReachedAt(now, path, i);
  }

  /** Where the names of a path that is written out end. */
  lemma {:induction false} CutsOfText(p: Path, i: nat) returns (k: nat)
    requires (forall j :: 0 <= j < |p| ==> IsName(p[j])) && IsCut(Text(p), i)
    ensures 1 <= k <= |p| && i == |Text(p[..k])| && Text(p)[..i] == Text(p[..k])
    decreases |p|
  {
    var init, last := p[..|p| - 1], p[|p| - 1];
    var text := Text(init);
    assert Text(p) == text + "/" + last;
    if i <= |text| {
      assert Text(p)[..i] == text[..i];
      assert i < |text| ==> Text(p)[i] == text[i];
      k := CutsOfText(init, i);
      assert init[..k] == p[..k];
    } else {
      assert forall j :: |text| + 1 <= j < |Text(p)| ==> Text(p)[j] == last[j - |text| - 1];
      k := |p|;
      assert p[..k] == p;
    }
  }

  lemma TextPrefix(p: Path, k: nat)
    requires 1 <= k <= |p|
    ensures Text(p[..k]) == Text(p[..k - 1]) + "/" + p[k - 1]
  {
    assert p[..k][..k - 1] == p[..k - 1];
  }

  /** The end of each name is such a place. */
  lemma {:induction false} NameEndsCut(p: Path, k: nat)
    requires (forall j :: 0 <= j < |p| ==> IsName(p[j])) && 1 <= k <= |p|
    ensures |Text(p[..k])| <= |Text(p)| && Text(p)[..|Text(p[..k])|] == Text(p[..k]) && IsCut(Text(p), |Text(p[..k])|)
    decreases |p| - k
  {
    if k == |p| {
      assert p[..k] == p;
      assert Text(p)[|Text(p)| - 1] == p[k - 1][|p[k - 1]| - 1];
    } else {
      NameEndsCut(p, k + 1);
      TextPrefix(p, k + 1);
      TextPrefix(p, k);
      var a, b := Text(p[..k]), Text(p[..k + 1]);
      assert Text(p)[..|b|][..|a|] == Text(p)[..|a|];
      assert b[..|a|] == a;
      assert Text(p)[|a|] == b[|a|] == '/';
      assert Text(p)[|a| - 1] == a[|a| - 1] == p[k - 1][|p[k - 1]| - 1];
    }
  }

  /** A path of proper names that are not too long, with no file on the way or at its end. */
  ghost predicate Free(nodes: map<Path, Node>, p: Path) {
    && (forall j :: 0 <= j < |p| ==> IsName(p[j]) && |p[j]| <= NAME_MAX)
    && (forall k :: 0 <= k <= |p| && p[..k] in nodes ==> nodes[p[..k]] == Dir)
  }

  lemma StillFree(was: map<Path, Node>, now: map<Path, Node>, p: Path, path: string, n: nat)
    requires Free(was, p) && GrownBy(was, now, path, n)
    ensures Free(now, p)
  {
  }

  lemma CanMakeNext(nodes: map<Path, Node>, p: Path, k: nat)
    requires WellFormed(nodes) && Free(nodes, p) && 1 <= k <= |p|
    requires k > 1 ==> AllReached(nodes, Text(p), |Text(p[..k])| - 1)
    ensures CanMake(nodes, Text(p[..k]))
  {
    hide Text, Resolve, IsCut, AllReached;
    TextResolves(p[..k]);
    assert p[..k][..k - 1] == p[..k - 1];
    if k > 1 {
      NameEndsCut(p, k - 1);
      TextPrefix(p, k);
      TextResolves(p[..k - 1]);
      ReachedBefore(nodes, Text(p), |Text(p[..k])| - 1, |Text(p[..k - 1])|);
    } else {
      assert p[..k - 1] == [];
    }
  }

  lemma ReachedBefore(nodes: map<Path, Node>, path: string, n: nat, i: nat)
    requires AllReached(nodes, path, n) && i <= n && i <= |path| && IsCut(path, i)
    ensures Resolve(path[..i]).Some? && Resolve(path[..i]).value in nodes
  {
    hide Resolve, IsCut;
  }

  /** Nothing stands in the way of such a path. */
  lemma NotBlocked(nodes: map<Path, Node>, p: Path)
    requires WellFormed(nodes) && Free(nodes, p)
    ensures !Blocked(nodes, Text(p))
  {
    hide Text, Resolve, AllReached, CanMake, WellFormed;
    forall i: nat | IsCut(Text(p), i) && AllReached(nodes, Text(p), i - 1) ensures CanMake(nodes, Text(p)[..i]) {
      var k := CutsOfText(p, i);
      CanMakeNext(nodes, p, k);
    }
  }

  /**
   Creation works: without a fault, a path of proper names that are not too long, that fits the buffer and has no file on
   it, names a directory afterwards, whatever of it was there before.
   */
  method CreateWorks(tree: Tree, p: Path, f: Faults) returns (ret: int)
    requires WellFormed(tree.nodes) && Free(tree.nodes, p) && p != [] && |Text(p)| < PATH_BUFFER && Faultless(f)
    modifies tree
    ensures ret == 0 && WellFormed(tree.nodes) && GrownBy(old(tree.nodes), tree.nodes, Text(p), |Text(p)|)
    ensures forall k :: 0 <= k <= |p| ==> p[..k] in tree.nodes && tree.nodes[p[..k]] == Dir
  {
    hide *;
    ghost var was := tree.nodes;
    HasText(p);
    ret := tree.CreateDirectory(Text(p), f);
    StillFree(was, tree.nodes, p, Text(p), |Text(p)|);
    NotBlocked(tree.nodes, p);
    AllThere(tree.nodes, p);
  }

  lemma HasText(p: Path)
    requires p != []
    ensures Text(p) != ""
  {
  }

  lemma AllThere(nodes: map<Path, Node>, p: Path)
    requires WellFormed(nodes) && Free(nodes, p) && p != []
    ensures AllReached(nodes, Text(p), |Text(p)|) ==> forall k :: 0 <= k <= |p| ==> p[..k] in nodes && nodes[p[..k]] == Dir
  {
    if AllReached(nodes, Text(p), |Text(p)|) {
      NameEndsCut(p, |p|);
      TextResolves(p);
      assert p[..|p|] == p;
      assert Text(p)[..|Text(p)|] == Text(p);
      assert p in nodes;
      forall k | 0 <= k <= |p| ensures p[..k] in nodes && nodes[p[..k]] == Dir {
        AncestorIn(nodes, p, k);
      }
    }
  }

  /** Where the path names a file, creation succeeds and leaves the file. */
  lemma CreateOverFile(nodes: map<Path, Node>)
    requires WellFormed(nodes) && ["f"] in nodes && nodes[["f"]].File?
    ensures AllReached(nodes, "f", 1) && Resolve("f") == Some(["f"])
  {
    var text := "f";
    assert text[..|text| - 1] == "" && "" + [text[0]] == text;
    assert Scan(text) == ([], text);
    assert Components("f") == ["f"];
    assert ["f"][..0] == [] && Walk(["f"]) == Some(["f"]);
    assert "f"[..1] == "f";
  }

  /** The text that the child path buffer holds for an entry. */
  function ChildPath(path: string, name: string): string {
    var text := path + "/" + name;
    if |text| < CHILD_BUFFER then text else text[..CHILD_BUFFER - 1]
  }

  /** A cut-off name behind the path of a directory leads into it, nowhere, or to its parent. */
  lemma CutChild(path: string, part: string)
    requires Resolve(path).Some? && '/' !in part
    ensures var p := Resolve(path).value;
            Resolve(path + "/" + part) ==
            if part == "" || part == "." then Some(p)
            else if part == ".." then if p == [] then None else Some(p[..|p| - 1])
            else Some(p + [part])
  {
    ScanName(path, part);
    var whole := Components(path) + [part];
    assert whole[..|whole| - 1] == Components(path);
    assert part != "" ==> Components(path + "/" + part) == whole;
  }

  /**
   The path used for an entry leads to that entry if and only if it fits the buffer, or the directory's own path
   is longer than the buffer and its start happens to lead there.
   */
  lemma ChildPathLeads(path: string, name: string)
    requires Resolve(path).Some? && IsName(name)
    ensures Resolve(ChildPath(path, name)) == Some(Resolve(path).value + [name]) <==>
            || |path| + 1 + |name| < CHILD_BUFFER
            || (|path| >= CHILD_BUFFER && Resolve(path[..CHILD_BUFFER - 1]) == Some(Resolve(path).value + [name]))
  {
    var p := Resolve(path).value;
    if |path| + 1 + |name| < CHILD_BUFFER {
      ResolveChild(path, name);
    } else if |path| < CHILD_BUFFER - 1 {
      var part := UnfitChild(path, name);
      CutChild(path, part);
      assert (p + [part])[|p|] == part && (p + [name])[|p|] == name;
    } else {
      assert ChildPath(path, name) == path[..CHILD_BUFFER - 1];
      assert |path| == CHILD_BUFFER - 1 ==> path[..CHILD_BUFFER - 1] == path;
    }
  }

  /** What goes wrong past the buffer: the path used for an entry `..x` leads to the directory above. */
  lemma ChildPathEscapes(path: string)
    requires Resolve(path).Some? && Resolve(path).value != [] && |path| == CHILD_BUFFER - 4
    ensures Resolve(ChildPath(path, "..x")) == Some(Resolve(path).value[..|Resolve(path).value| - 1])
  {
    assert ChildPath(path, "..x") == path + "/" + "..";
    CutChild(path, "..");
  }
}
