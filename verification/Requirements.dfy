/**
 `parse_requirements_list`: requirement files including each other with `-r`, read once
 each through a shared set of processed paths, cycles and diamonds included.
 */
module Requirements {
  import opened Options

  type Path = string

  /** A line after stripping and expansion; `Broken` is one whose parsing or reading raises. */
  datatype Line = Skipped | Include(target: string) | Needs(package: string) | Broken

  /**
   The file system as the parser sees it: what a path holds, if anything, and which path an
   include in a file leads to (expanded, joined to the file's directory, made absolute).
   */
  datatype FileSystem = FileSystem(read: Path -> Option<seq<Line>>, resolve: (Path, string) -> Path)

  /** The lines that count: a line that raises ends the file, keeping what came before. */
  function UpToBroken(lines: seq<Line>): seq<Line> {
    if lines == [] || lines[0].Broken? then [] else [lines[0]] + UpToBroken(lines[1..])
  }

  /** That is the lines before the first one that raises, all of them if none does. */
  lemma {:induction false} UpToBrokenIs(lines: seq<Line>, n: nat)
    requires n <= |lines| && (n < |lines| ==> lines[n].Broken?) && forall i :: 0 <= i < n ==> !lines[i].Broken?
    ensures UpToBroken(lines) == lines[..n]
  {
    if n > 0 {
      UpToBrokenIs(lines[1..], n - 1);
      assert lines[..n] == [lines[0]] + lines[1..][..n - 1];
    }
  }

  function Lines(fs: FileSystem, f: Path): seq<Line> {
    if fs.read(f).Some? then UpToBroken(fs.read(f).value) else []
  }

  /** The requirements a file states itself. */
  function Direct(lines: seq<Line>): set<string> {
    set i | 0 <= i < |lines| && lines[i].Needs? :: lines[i].package
  }

  /** The files a file includes itself. */
  function Includes(fs: FileSystem, f: Path, lines: seq<Line>): set<Path> {
    set i | 0 <= i < |lines| && lines[i].Include? :: fs.resolve(f, lines[i].target)
  }

  function Successors(fs: FileSystem, f: Path): set<Path> { Includes(fs, f, Lines(fs, f)) }

  function DirectOf(fs: FileSystem, files: set<Path>): set<string> {
    set f, r | f in files && r in Direct(Lines(fs, f)) :: r
  }

  // ---------------------------------------------------------------- reachability

  ghost predicate IsWalk(fs: FileSystem, walk: seq<Path>) {
    walk != [] && forall i :: 0 <= i < |walk| - 1 ==> walk[i + 1] in Successors(fs, walk[i])
  }

  ghost predicate Reaches(fs: FileSystem, from: Path, to: Path) {
    exists walk :: IsWalk(fs, walk) && walk[0] == from && walk[|walk| - 1] == to
  }

  lemma ReachesSelf(fs: FileSystem, f: Path)
    ensures Reaches(fs, f, f)
  {
    assert IsWalk(fs, [f]);
  }

  lemma ReachesThrough(fs: FileSystem, f: Path, g: Path, h: Path)
    requires g in Successors(fs, f) && Reaches(fs, g, h)
    ensures Reaches(fs, f, h)
  {
    var walk :| IsWalk(fs, walk) && walk[0] == g && walk[|walk| - 1] == h;
    assert IsWalk(fs, [f] + walk);
  }

  ghost predicate Closed(fs: FileSystem, files: set<Path>) {
    forall f :: f in files ==> Successors(fs, f) <= files
  }

  lemma {:induction false} WalkStaysInside(fs: FileSystem, files: set<Path>, walk: seq<Path>)
    requires Closed(fs, files) && IsWalk(fs, walk) && walk[0] in files
    ensures walk[|walk| - 1] in files
    decreases |walk|
  {
    if |walk| > 1 {
      var shorter := walk[..|walk| - 1];
      assert IsWalk(fs, shorter);
      WalkStaysInside(fs, files, shorter);
      assert walk[|walk| - 1] in Successors(fs, walk[|walk| - 2]);
    }
  }

  // ---------------------------------------------------------------- the parser

  /** The `processed_files` set every level of the recursion shares. */
  class Processed {
    var files: set<Path>
    constructor ()
      ensures files == {}
    { files := {}; }
  }

  /** What has been read since `before`: everything new is reachable from `f` and has its includes read too, `f` itself aside. */
  ghost predicate ReadFrom(fs: FileSystem, f: Path, before: set<Path>, now: set<Path>) {
    && before <= now
    && (forall g :: g in now - before ==> Reaches(fs, f, g))
    && (forall g :: g in now - before && g != f ==> Successors(fs, g) <= now)
  }

  /**
   One file: nothing if its path was already processed, else its requirements and those of
   every file newly read because of it.  `universe` is any finite set of paths closed under
   inclusion; it makes the recursion end.
   */
  method Parse(fs: FileSystem, f: Path, done: Processed, ghost universe: set<Path>) returns (packages: set<string>)
    requires f in universe && done.files <= universe && Closed(fs, universe)
    modifies done
    ensures old(done.files) + {f} <= done.files <= universe
    ensures ReadFrom(fs, f, old(done.files), done.files)
    ensures f !in old(done.files) ==> Successors(fs, f) <= done.files
    ensures packages == DirectOf(fs, done.files - old(done.files))
    decreases |universe - done.files|, 0
  {
    ghost var before := done.files;
    if f in done.files {
      assert DirectOf(fs, {}) == {};
      return {};
    }
    done.files := done.files + {f};
    ReachesSelf(fs, f);
    packages := {};
    var content := fs.read(f);
    if content.None? {
      assert Lines(fs, f) == [];
      assert DirectOf(fs, {f}) == {};
      assert done.files - before == {f};
      return;
    }
    var lines := content.value;
    var i := 0;
    Start(fs, f, before, lines);
    while i < |lines| && !lines[i].Broken?
      invariant 0 <= i <= |lines|
      invariant before + {f} <= done.files <= universe
      invariant HalfRead(fs, f, before, lines, i, done.files, packages)
    {
      SmallerRest(universe, before, done.files, f);
      packages := ParseLine(fs, f, lines, i, done, packages, before, universe);
      i := i + 1;
    }
    KeptPrefix(lines, i);
    WholeFile(fs, f, before, done.files);
  }

  /** One line of a file that is being read. */
  method ParseLine(fs: FileSystem, f: Path, lines: seq<Line>, i: nat, done: Processed, got: set<string>,
                   ghost before: set<Path>, ghost universe: set<Path>) returns (packages: set<string>)
    requires fs.read(f) == Some(lines) && i < |lines| && !lines[i].Broken?
    requires before + {f} <= done.files <= universe && Closed(fs, universe)
    requires HalfRead(fs, f, before, lines, i, done.files, got)
    modifies done
    ensures before + {f} <= done.files <= universe
    ensures HalfRead(fs, f, before, lines, i + 1, done.files, packages)
    decreases |universe - done.files|, 1
  {
    ghost var reached := done.files;
    match lines[i]
    case Include(target) =>
      IncludeIsSuccessor(fs, f, lines, i);
      var more := Parse(fs, fs.resolve(f, target), done, universe);
      packages := got + more;
      AfterInclude(fs, f, before, lines, i, reached, done.files, got);
    case Needs(package) =>
      packages := got + {package};
      AfterLine(fs, f, before, lines, i, reached, got, packages);
    case Skipped =>
      packages := got;
      AfterLine(fs, f, before, lines, i, reached, got, packages);
  }

  /** After i lines of `f`: their includes have been read, and the requirements are those of the lines and of the files read. */
  ghost predicate HalfRead(fs: FileSystem, f: Path, before: set<Path>, lines: seq<Line>, i: nat, now: set<Path>, packages: set<string>)
    requires i <= |lines|
  {
    && f in now && f !in before
    && UpToBroken(lines) == lines[..i] + UpToBroken(lines[i..])
    && ReadFrom(fs, f, before, now)
    && Includes(fs, f, lines[..i]) <= now
    && packages == Direct(lines[..i]) + DirectOf(fs, now - before - {f})
  }

  lemma Start(fs: FileSystem, f: Path, before: set<Path>, lines: seq<Line>)
    requires f !in before
    ensures HalfRead(fs, f, before, lines, 0, before + {f}, {})
  {
    ReachesSelf(fs, f);
    assert lines[0..] == lines;
    assert before + {f} - before - {f} == {};
    assert DirectOf(fs, {}) == {};
  }

  lemma IncludeIsSuccessor(fs: FileSystem, f: Path, lines: seq<Line>, i: nat)
    requires fs.read(f) == Some(lines) && i < |lines| && lines[i].Include?
    requires UpToBroken(lines) == lines[..i] + UpToBroken(lines[i..])
    ensures fs.resolve(f, lines[i].target) in Successors(fs, f)
  {
    assert Lines(fs, f)[i] == lines[i];
  }

  lemma AfterLine(fs: FileSystem, f: Path, before: set<Path>, lines: seq<Line>, i: nat, now: set<Path>, got: set<string>, packages: set<string>)
    requires i < |lines| && !lines[i].Broken? && !lines[i].Include?
    requires HalfRead(fs, f, before, lines, i, now, got)
    requires packages == if lines[i].Needs? then got + {lines[i].package} else got
    ensures HalfRead(fs, f, before, lines, i + 1, now, packages)
  {
    KeptStep(lines, i);
    IncludesStep(fs, f, lines, i);
  }

  lemma AfterInclude(fs: FileSystem, f: Path, before: set<Path>, lines: seq<Line>, i: nat, reached: set<Path>, now: set<Path>, packages: set<string>)
    requires i < |lines| && lines[i].Include?
    requires HalfRead(fs, f, before, lines, i, reached, packages)
    requires var next := fs.resolve(f, lines[i].target);
             && next in Successors(fs, f) && next in now
             && ReadFrom(fs, next, reached, now)
             && (next !in reached ==> Successors(fs, next) <= now)
    ensures HalfRead(fs, f, before, lines, i + 1, now, packages + DirectOf(fs, now - reached))
  {
    KeptStep(lines, i);
    IncludesStep(fs, f, lines, i);
    ReadOn(fs, f, fs.resolve(f, lines[i].target), before, reached, now);
  }

  lemma KeptPrefix(lines: seq<Line>, i: nat)
    requires i <= |lines| && (i < |lines| ==> lines[i].Broken?)
    requires UpToBroken(lines) == lines[..i] + UpToBroken(lines[i..])
    ensures UpToBroken(lines) == lines[..i]
  {
    assert UpToBroken(lines[i..]) == [];
  }

  lemma SmallerRest(universe: set<Path>, before: set<Path>, now: set<Path>, f: Path)
    requires before + {f} <= now <= universe && f !in before
    ensures |universe - now| < |universe - before|
  {
    assert f in universe - before;
    Subset(universe - now, universe - before - {f});
  }

  lemma Subset(a: set<Path>, b: set<Path>)
    requires a <= b
    ensures |a| <= |b|
  {
    assert b == a + (b - a);
  }

  lemma KeptStep(lines: seq<Line>, i: nat)
    requires i < |lines| && !lines[i].Broken?
    ensures lines[..i] + UpToBroken(lines[i..]) == lines[..i + 1] + UpToBroken(lines[i + 1..])
  {
    assert lines[i..][1..] == lines[i + 1..];
    assert lines[..i + 1] == lines[..i] + [lines[i]];
  }

  lemma IncludesStep(fs: FileSystem, f: Path, lines: seq<Line>, i: nat)
    requires i < |lines|
    ensures Includes(fs, f, lines[..i + 1]) ==
            Includes(fs, f, lines[..i]) + if lines[i].Include? then {fs.resolve(f, lines[i].target)} else {}
    ensures Direct(lines[..i + 1]) == Direct(lines[..i]) + if lines[i].Needs? then {lines[i].package} else {}
  {
    var a, b := lines[..i], lines[..i + 1];
    assert forall k :: 0 <= k < i ==> a[k] == b[k];
    assert b[i] == lines[i];
    if lines[i].Include? {
      assert fs.resolve(f, b[i].target) in Includes(fs, f, b);
    }
    if lines[i].Needs? {
      assert b[i].package in Direct(b);
    }
    forall x | x in Includes(fs, f, a)
      ensures x in Includes(fs, f, b)
    {
      var k :| 0 <= k < |a| && a[k].Include? && fs.resolve(f, a[k].target) == x;
      assert b[k] == a[k];
    }
    forall x | x in Direct(a)
      ensures x in Direct(b)
    {
      var k :| 0 <= k < |a| && a[k].Needs? && a[k].package == x;
      assert b[k] == a[k];
    }
  }

  /** Reading one include further. */
  lemma ReadOn(fs: FileSystem, f: Path, next: Path, before: set<Path>, reached: set<Path>, now: set<Path>)
    requires ReadFrom(fs, f, before, reached) && ReadFrom(fs, next, reached, now)
    requires next !in reached ==> Successors(fs, next) <= now
    requires f in reached && next in Successors(fs, f)
    ensures ReadFrom(fs, f, before, now)
    ensures DirectOf(fs, now - before - {f}) == DirectOf(fs, reached - before - {f}) + DirectOf(fs, now - reached)
  {
    forall g | g in now - before
      ensures Reaches(fs, f, g)
    {
      if g !in reached {
        ReachesThrough(fs, f, next, g);
      }
    }
    assert now - before - {f} == (reached - before - {f}) + (now - reached);
  }

  lemma WholeFile(fs: FileSystem, f: Path, before: set<Path>, now: set<Path>)
    requires f in now && f !in before
    ensures Direct(Lines(fs, f)) + DirectOf(fs, now - before - {f}) == DirectOf(fs, now - before)
  {
    assert now - before == (now - before - {f}) + {f};
  }

  /**
   The whole parse, on any include graph with finitely many paths: it ends, and returns
   exactly the requirements stated by some file reachable from the root.
   */
  method ParseRequirementsList(fs: FileSystem, root: Path, ghost universe: set<Path>) returns (packages: set<string>)
    requires root in universe && Closed(fs, universe)
    ensures forall r :: r in packages <==> exists f :: Reaches(fs, root, f) && r in Direct(Lines(fs, f))
  {
    var done := new Processed();
    packages := Parse(fs, root, done, universe);
    assert done.files - {} == done.files;
    forall r
      ensures r in packages <==> exists f :: Reaches(fs, root, f) && r in Direct(Lines(fs, f))
    {
      if f :| Reaches(fs, root, f) && r in Direct(Lines(fs, f)) {
        var walk :| IsWalk(fs, walk) && walk[0] == root && walk[|walk| - 1] == f;
        WalkStaysInside(fs, done.files, walk);
      }
      if r in packages {
        var f :| f in done.files && r in Direct(Lines(fs, f));
        assert Reaches(fs, root, f);
      }
    }
  }
}
