/**
 The command that makes the next pair of migration files (cmd/provision/migrate.go).  A file
 is named by its cleaned path; what the operating system lets the command do is a parameter.
 */
module MigrateNew {
  import opened Wrappers
  import opened Machine
  import opened Decimal
  import opened Paths
  import opened Migrations

  const DEFAULT_DIGITS: nat := 6
  const EXT: string := ".sql"

  predicate HasSuffix(s: string, t: string) {
    |t| <= |s| && s[|s| - |t|..] == t
  }

  // ---- Directories ----

  predicate In(p: Path, dir: Path) {
    |p.elems| > 0 && p.rooted == dir.rooted && p.elems[..|p.elems| - 1] == dir.elems
  }

  function Last(p: Path): string
    requires |p.elems| > 0
  {
    p.elems[|p.elems| - 1]
  }

  /** The names of the files that are directly in a directory. */
  function Names(files: set<Path>, dir: Path): set<string> {
    set p | p in files && In(p, dir) :: Last(p)
  }

  lemma NamesAdd(files: set<Path>, p: Path, dir: Path)
    ensures Names(files + {p}, dir) == Names(files, dir) + (if In(p, dir) then {Last(p)} else {})
  {
    var all := files + {p};
    forall f | f in Names(files, dir) ensures f in Names(all, dir) {
      var q :| q in files && In(q, dir) && f == Last(q);
      assert q in all;
    }
    assert p in all;
  }

  /** The .sql files of a directory in byte order, as globbing lists them. */
  ghost predicate Sorted(files: set<string>, names: seq<string>) {
    && (forall f :: f in names <==> f in files && HasSuffix(f, EXT))
    && (forall i, j :: 0 <= i < j < |names| ==> LexLe(names[i], names[j]))
  }

  function Matches(dir: string, names: seq<string>): seq<string> {
    seq(|names|, (i: nat) requires i < |names| => dir + "/" + names[i])
  }

  // ---- What the command does ----

  /** What the system does about one file; one that does not close is there all the same. */
  datatype Attempt = Works | Refused | CloseFails

  /** What the system does about the directory, the first and the second file. */
  datatype World = World(mkdir: bool, up: Attempt, down: Attempt)

  function FileName(version: string, name: string, direction: string): string {
    version + "_" + name + "." + direction + EXT
  }

  /** The name goes into the path before the path is cleaned. */
  function Target(dir: string, version: string, name: string, direction: string): Path {
    Join(dir, FileName(version, name, direction))
  }

  /** Exclusive: fails if the file is there already. */
  function CreateFile(files: set<Path>, p: Path, a: Attempt): (bool, set<Path>) {
    if a.Refused? || p in files then (false, files) else (a.Works?, files + {p})
  }

  /** The first failure ends the command; what was made before stays. */
  function Created(files: set<Path>, dir: string, version: string, name: string, w: World): (bool, set<Path>) {
    if !w.mkdir then (false, files)
    else
      var up := CreateFile(files, Target(dir, version, name, "up"), w.up);
      if !up.0 then up else CreateFile(up.1, Target(dir, version, name, "down"), w.down)
  }

  predicate Taken(files: set<string>, version: string) {
    exists f :: f in files && version + "_" <= f && HasSuffix(f, EXT)
  }

  /** The answer of the command and the files after it. */
  function Outcome(files: set<Path>, dir: string, name: string, names: seq<string>, w: World)
    : (Result<string, Error>, set<Path>)
  {
    match NextSeqVersion(Matches(dir, names), DEFAULT_DIGITS)
    case Err(e) => (Err(e), files)
    case Ok(version) =>
      if Taken(Names(files, Clean(dir)), version) then (Err(Duplicate), files)
      else
        var made := Created(files, dir, version, name, w);
        (if made.0 then Ok(version) else Err(NotCreated), made.1)
  }

  class Disk {
    var files: set<Path>

    constructor (files: set<Path>)
      ensures this.files == files
    {
      this.files := files;
    }

    method Create(p: Path, a: Attempt) returns (ok: bool)
      modifies this
      ensures (ok, files) == CreateFile(old(files), p, a)
    {
      if a.Refused? || p in files {
        return false;
      }
      files := files + {p};
      return a.Works?;
    }

    method New(dir: string, name: string, names: seq<string>, w: World) returns (r: Result<string, Error>)
      requires Sorted(Names(files, Clean(dir)), names)
      modifies this
      ensures (r, files) == Outcome(old(files), dir, name, names, w)
    {
      r := NextSeqVersion(Matches(dir, names), DEFAULT_DIGITS);
      if r.Err? {
        return;
      }
      var version := r.value;
      if Taken(Names(files, Clean(dir)), version) {
        return Err(Duplicate);
      }
      if !w.mkdir {
        return Err(NotCreated);
      }
      var directions, attempts := ["up", "down"], [w.up, w.down];
      for i := 0 to 2
        invariant i == 0 ==> files == old(files)
        invariant i == 1 ==> (true, files) == CreateFile(old(files), Target(dir, version, name, "up"), w.up)
        invariant i == 2 ==> (true, files) == Created(old(files), dir, version, name, w)
      {
        var ok := Create(Target(dir, version, name, directions[i]), attempts[i]);
        if !ok {
          return Err(NotCreated);
        }
      }
    }
  }

  // ---- Where the files end up ----

  /** The elements above both files, and the part of their names that they share. */
  function Where(dir: string, version: string, name: string): (seq<string>, string) {
    var es := Split(version + "_" + name);
    (Walk(Clean(dir).rooted, Clean(dir).elems, es[..|es| - 1]), es[|es| - 1])
  }

  /** The files end up directly in the directory, whatever the name looks like. */
  predicate Lands(dir: string, version: string, name: string) {
    Where(dir, version, name).0 == Clean(dir).elems
  }

  predicate IsDirection(s: string) {
    s == "up" || s == "down"
  }

  lemma SplitFile(version: string, name: string, direction: string)
    requires IsDirection(direction)
    ensures var es := Split(version + "_" + name);
      Split(FileName(version, name, direction)) == es[..|es| - 1] + [es[|es| - 1] + "." + direction + EXT]
  {
    var a, b := version + "_" + name, "." + direction + EXT;
    assert FileName(version, name, direction) == a + b;
    SplitAppend(a, b);
    var last := Split(a)[|Split(a)| - 1];
    assert last + b == last + "." + direction + EXT;
  }

  lemma WalkOnto(rooted: bool, done: seq<string>, front: seq<string>, last: string)
    requires |last| > 2
    ensures Walk(rooted, done, front + [last]) == Walk(rooted, done, front) + [last]
  {
    assert (front + [last])[..|front|] == front;
  }

  lemma TargetShape(dir: string, version: string, name: string, direction: string)
    requires |version| > 0 && AllDigits(version) && IsDirection(direction)
    ensures var (above, stem) := Where(dir, version, name);
      Target(dir, version, name, direction) == Path(Clean(dir).rooted, above + [stem + "." + direction + EXT])
  {
    var f, es, d := FileName(version, name, direction), Split(version + "_" + name), Clean(dir);
    assert f[0] == version[0];
    JoinWalks(dir, f);
    SplitFile(version, name, direction);
    WalkOnto(d.rooted, d.elems, es[..|es| - 1], es[|es| - 1] + "." + direction + EXT);
  }

  lemma TargetName(dir: string, version: string, name: string, direction: string)
    requires |version| > 0 && AllDigits(version) && IsDirection(direction)
    ensures var p, stem := Target(dir, version, name, direction), Where(dir, version, name).1;
      && (In(p, Clean(dir)) <==> Lands(dir, version, name))
      && |p.elems| > 0 && Last(p) == stem + "." + direction + EXT && '/' !in Last(p)
  {
    var (above, stem) := Where(dir, version, name);
    TargetShape(dir, version, name, direction);
    assert stem in Split(version + "_" + name);
    assert (above + [stem + "." + direction + EXT])[..|above|] == above;
  }

  lemma TargetsDiffer(dir: string, version: string, name: string)
    requires |version| > 0 && AllDigits(version)
    ensures Target(dir, version, name, "up") != Target(dir, version, name, "down")
  {
    TargetName(dir, version, name, "up");
    TargetName(dir, version, name, "down");
    var stem := Where(dir, version, name).1;
    assert (stem + "." + "up" + EXT)[|stem| + 1] == 'u';
    assert (stem + "." + "down" + EXT)[|stem| + 1] == 'd';
  }

  /** A name without a slash lands, behind the version and an underscore. */
  lemma PlainLands(dir: string, version: string, name: string)
    requires AllDigits(version) && '/' !in name
    ensures Where(dir, version, name) == (Clean(dir).elems, version + "_" + name)
  {
    assert forall i :: 0 <= i < |version| ==> version[i] != '/';
    SplitPlain(version + "_" + name);
  }

  lemma DotsText(version: string, x: string, stem: string)
    ensures version + "_" + (x + "/../" + stem) == (version + "_" + x) + "/" + (".." + "/" + stem)
  {
    assert "/../" == "/" + (".." + "/");
  }

  lemma SplitDots(head: string, stem: string)
    requires '/' !in head && '/' !in stem
    ensures Split(head + "/" + (".." + "/" + stem)) == [head] + ([".."] + [stem])
  {
    SplitPlain(head);
    SplitPlain("..");
    SplitPlain(stem);
    SplitSlash("..", stem);
    SplitSlash(head, ".." + "/" + stem);
  }

  lemma WalkThereAndBack(rooted: bool, done: seq<string>, head: string)
    requires |head| > 2
    ensures Walk(rooted, done, [head, ".."]) == done
  {
    WalkOnto(rooted, done, [], head);
    assert [] + [head] == [head];
    assert [head, ".."][..1] == [head];
    assert (done + [head])[..|done|] == done;
  }

  /** One ".." takes the version back off the path. */
  lemma DotsLandBare(dir: string, version: string, x: string, stem: string)
    requires |version| > 2 && AllDigits(version) && '/' !in x && '/' !in stem
    ensures Where(dir, version, x + "/../" + stem) == (Clean(dir).elems, stem)
  {
    var head := version + "_" + x;
    assert forall i :: 0 <= i < |version| ==> version[i] != '/';
    DotsText(version, x, stem);
    SplitDots(head, stem);
    assert ([head] + ([".."] + [stem]))[..2] == [head, ".."];
    WalkThereAndBack(Clean(dir).rooted, Clean(dir).elems, head);
  }

  // ---- Directories that count ----

  ghost predicate HasVersion(files: set<string>, v: nat) {
    exists f :: f in files && WellNamed(f, DEFAULT_DIGITS) && Version(f, DEFAULT_DIGITS) == v
  }

  ghost predicate Counting(f: string, k: nat) {
    '/' !in f && HasSuffix(f, EXT) && WellNamed(f, DEFAULT_DIGITS) && 1 <= Version(f, DEFAULT_DIGITS) <= k
  }

  /** Every file is a migration with a version of 1 to k, and each of these versions occurs. */
  ghost predicate Counted(files: set<string>, k: nat) {
    && (forall f :: f in files ==> Counting(f, k))
    && (forall v :: 1 <= v <= k ==> HasVersion(files, v))
  }

  /** The version a shared name part starts with, if it starts with one. */
  ghost function StemVersion(stem: string): Option<nat> {
    if |stem| > DEFAULT_DIGITS && stem[DEFAULT_DIGITS] == '_' && AllDigits(stem[..DEFAULT_DIGITS]) then
      Some(Value(stem[..DEFAULT_DIGITS]))
    else None
  }

  lemma StemDecides(stem: string, direction: string)
    requires IsDirection(direction) && '/' !in stem
    ensures var f := stem + "." + direction + EXT;
      && '/' !in f && HasSuffix(f, EXT)
      && (WellNamed(f, DEFAULT_DIGITS) <==> StemVersion(stem).Some?)
      && (WellNamed(f, DEFAULT_DIGITS) ==> Version(f, DEFAULT_DIGITS) == StemVersion(stem).value)
  {
    var f := stem + "." + direction + EXT;
    BasePlain(f);
    assert f[|f| - |EXT|..] == EXT;
    if |stem| > DEFAULT_DIGITS {
      assert f[..DEFAULT_DIGITS] == stem[..DEFAULT_DIGITS];
      assert f[DEFAULT_DIGITS] == stem[DEFAULT_DIGITS];
    } else {
      assert forall i :: |stem| <= i < |f| ==> f[i] != '_';
    }
  }

  lemma JoinedName(dir: string, f: string)
    requires '/' !in f && WellNamed(f, DEFAULT_DIGITS)
    ensures WellNamed(dir + "/" + f, DEFAULT_DIGITS)
    ensures Version(dir + "/" + f, DEFAULT_DIGITS) == Version(f, DEFAULT_DIGITS)
  {
    BaseJoin(dir, f);
    BasePlain(f);
  }

  lemma CountedListing(dir: string, files: set<string>, names: seq<string>, k: nat)
    requires Counted(files, k) && Sorted(files, names)
    ensures Listing(Matches(dir, names), DEFAULT_DIGITS) && IsHighest(Matches(dir, names), DEFAULT_DIGITS, k)
  {
    var matches := Matches(dir, names);
    forall i | 0 <= i < |names|
      ensures WellNamed(matches[i], DEFAULT_DIGITS) && 1 <= Version(matches[i], DEFAULT_DIGITS) <= k
      ensures Base(matches[i]) == names[i]
    {
      assert names[i] in names;
      assert Counting(names[i], k);
      JoinedName(dir, names[i]);
      BaseJoin(dir, names[i]);
    }
    if names != [] {
      assert 1 <= Version(matches[0], DEFAULT_DIGITS) <= k;
    }
    if k > 0 {
      assert HasVersion(files, k);
      var f :| f in files && WellNamed(f, DEFAULT_DIGITS) && Version(f, DEFAULT_DIGITS) == k;
      assert Counting(f, k);
      assert f in names;
      var i :| 0 <= i < |names| && names[i] == f;
      JoinedName(dir, f);
      assert Version(matches[i], DEFAULT_DIGITS) == k;
    }
  }

  /** A text of six digits that stands for v. */
  ghost predicate Denotes(version: string, v: nat) {
    |version| == DEFAULT_DIGITS && AllDigits(version) && Value(version) == v
  }

  lemma PrefixIsVersion(f: string, version: string)
    requires '/' !in f && WellNamed(f, DEFAULT_DIGITS)
    requires |version| == DEFAULT_DIGITS && AllDigits(version) && version + "_" <= f
    ensures Version(f, DEFAULT_DIGITS) == Value(version)
  {
    BasePlain(f);
    assert f[..DEFAULT_DIGITS] == (version + "_")[..DEFAULT_DIGITS] == version;
  }

  lemma VersionUnused(files: set<string>, k: nat, version: string)
    requires Counted(files, k) && Denotes(version, k + 1)
    ensures forall f :: f in files ==> !(version + "_" <= f)
  {
    forall f | f in files ensures !(version + "_" <= f) {
      assert Counting(f, k);
      if version + "_" <= f {
        PrefixIsVersion(f, version);
      }
    }
  }

  /** In a counting directory the command chooses k + 1, unless that has a seventh digit. */
  lemma CountedNext(dir: string, files: set<string>, names: seq<string>, k: nat)
    requires Counted(files, k) && Sorted(files, names)
    ensures var r := NextSeqVersion(Matches(dir, names), DEFAULT_DIGITS);
      if k + 1 < Pow10(DEFAULT_DIGITS) then r.Ok? && Denotes(r.value, k + 1) && !Taken(files, r.value)
      else r == Err(TooLarge)
  {
    CountedListing(dir, files, names, k);
    NextVersion(Matches(dir, names), DEFAULT_DIGITS, k);
    if k + 1 < Pow10(DEFAULT_DIGITS) {
      VersionUnused(files, k, NextSeqVersion(Matches(dir, names), DEFAULT_DIGITS).value);
    }
  }

  // ---- Which names and outcomes keep the count ----

  /** The names the command adds to the directory: those of the files it made there. */
  function Added(files: set<Path>, dir: string, version: string, name: string, w: World): set<string> {
    var stem, up := Where(dir, version, name).1, Target(dir, version, name, "up");
    if !w.mkdir || w.up.Refused? || up in files || !Lands(dir, version, name) then {}
    else
      {stem + "." + "up" + EXT}
      + (if w.up.Works? && !w.down.Refused? && Target(dir, version, name, "down") !in files then
           {stem + "." + "down" + EXT}
         else {})
  }

  lemma CreatedNames(files: set<Path>, dir: string, version: string, name: string, w: World)
    requires |version| > 0 && AllDigits(version)
    ensures Names(Created(files, dir, version, name, w).1, Clean(dir))
         == Names(files, Clean(dir)) + Added(files, dir, version, name, w)
  {
    var up, down := Target(dir, version, name, "up"), Target(dir, version, name, "down");
    TargetName(dir, version, name, "up");
    TargetName(dir, version, name, "down");
    TargetsDiffer(dir, version, name);
    NamesAdd(files, up, Clean(dir));
    NamesAdd(files + {up}, down, Clean(dir));
  }

  lemma AddedCounting(files: set<Path>, dir: string, version: string, name: string, w: World, j: nat)
    requires |version| > 0 && AllDigits(version)
    ensures var stem := Where(dir, version, name).1;
      forall f :: f in Added(files, dir, version, name, w) ==>
        && (WellNamed(f, DEFAULT_DIGITS) <==> StemVersion(stem).Some?)
        && (WellNamed(f, DEFAULT_DIGITS) ==> Version(f, DEFAULT_DIGITS) == StemVersion(stem).value)
        && (Counting(f, j) <==> StemVersion(stem).Some? && 1 <= StemVersion(stem).value <= j)
  {
    var stem := Where(dir, version, name).1;
    assert stem in Split(version + "_" + name);
    StemDecides(stem, "up");
    StemDecides(stem, "down");
  }

  /** Files of one version v, or none, join a directory that counts to k. */
  lemma CountedWith(files: set<string>, k: nat, more: set<string>, v: Option<nat>, j: nat)
    requires Counted(files, k)
    requires forall f :: f in more ==>
      && (WellNamed(f, DEFAULT_DIGITS) <==> v.Some?)
      && (WellNamed(f, DEFAULT_DIGITS) ==> Version(f, DEFAULT_DIGITS) == v.value)
      && (Counting(f, j) <==> v.Some? && 1 <= v.value <= j)
    ensures more == {} ==> (Counted(files + more, j) <==> j == k)
    ensures more != {} ==>
      (Counted(files + more, j) <==> v.Some? && 1 <= v.value <= j && j == if v.value == k + 1 then k + 1 else k)
  {
    var all := files + more;
    assert forall u :: HasVersion(files, u) ==> HasVersion(all, u) by {
      forall u | HasVersion(files, u) ensures HasVersion(all, u) {
        var f :| f in files && WellNamed(f, DEFAULT_DIGITS) && Version(f, DEFAULT_DIGITS) == u;
        assert f in all;
      }
    }
    OnlyTheseVersions(files, k, more, v);
    assert k > 0 ==> HasVersion(files, k);
    assert j > 0 && Counted(all, j) ==> HasVersion(all, j);
    assert Counted(all, j) && k > 0 ==> k <= j by {
      if Counted(all, j) && k > 0 {
        var f :| f in files && WellNamed(f, DEFAULT_DIGITS) && Version(f, DEFAULT_DIGITS) == k;
        assert Counting(f, j);
      }
    }
    if more != {} {
      var f :| f in more;
      assert Counted(all, j) ==> Counting(f, j);
      assert v.Some? ==> HasVersion(all, v.value) by {
        assert f in all;
      }
      assert j > k ==> Counted(all, j) ==> HasVersion(all, k + 1);
    }
    if j >= k && (more == {} || (v.Some? && 1 <= v.value <= j)) {
      forall f | f in all ensures Counting(f, j) {
        if f in files {
          assert Counting(f, k);
        }
      }
    }
  }

  lemma OnlyTheseVersions(files: set<string>, k: nat, more: set<string>, v: Option<nat>)
    requires Counted(files, k)
    requires forall f :: f in more ==>
      && (WellNamed(f, DEFAULT_DIGITS) <==> v.Some?)
      && (WellNamed(f, DEFAULT_DIGITS) ==> Version(f, DEFAULT_DIGITS) == v.value)
    ensures forall u: nat :: HasVersion(files + more, u) ==> 1 <= u <= k || (more != {} && v == Some(u))
  {
    forall u: nat | HasVersion(files + more, u) ensures 1 <= u <= k || (more != {} && v == Some(u)) {
      var f :| f in files + more && WellNamed(f, DEFAULT_DIGITS) && Version(f, DEFAULT_DIGITS) == u;
      if f in files {
        assert Counting(f, k);
      }
    }
  }

  /**
   Exactly which names and outcomes keep a directory counting: the count goes on to k + 1 if
   and only if the first file is made, lands in the directory, and bears the version k + 1
   there; and the directory still counts at all if and only if nothing is made in it or what
   is made bears a version from 1 to k + 1.
   */
  lemma CountsOnExactly(files: set<Path>, dir: string, k: nat, version: string, name: string, w: World)
    requires Counted(Names(files, Clean(dir)), k) && Denotes(version, k + 1)
    ensures var after := Names(Created(files, dir, version, name, w).1, Clean(dir));
      var made := w.mkdir && !w.up.Refused? && Target(dir, version, name, "up") !in files && Lands(dir, version, name);
      var v := StemVersion(Where(dir, version, name).1);
      && (Counted(after, k + 1) <==> made && v == Some(k + 1))
      && ((exists j: nat :: Counted(after, j)) <==> !made || (v.Some? && 1 <= v.value <= k + 1))
  {
    var more := Added(files, dir, version, name, w);
    CreatedNames(files, dir, version, name, w);
    forall j: nat ensures Counted(Names(files, Clean(dir)) + more, j) <==>
      if more == {} then j == k
      else var v := StemVersion(Where(dir, version, name).1);
        v.Some? && 1 <= v.value <= j && j == if v.value == k + 1 then k + 1 else k
    {
      AddedCounting(files, dir, version, name, w, j);
      CountedWith(Names(files, Clean(dir)), k, more, StemVersion(Where(dir, version, name).1), j);
    }
    var v := StemVersion(Where(dir, version, name).1);
    assert more != {} && v.Some? && 1 <= v.value <= k + 1 ==>
      Counted(Names(files, Clean(dir)) + more, if v.value == k + 1 then k + 1 else k);
    assert more == {} ==> Counted(Names(files, Clean(dir)) + more, k);
  }

  // ---- Names without a slash ----

  lemma PlainVersion(dir: string, version: string, name: string, v: nat)
    requires Denotes(version, v) && '/' !in name
    ensures Lands(dir, version, name) && StemVersion(Where(dir, version, name).1) == Some(v)
  {
    PlainLands(dir, version, name);
    var stem := version + "_" + name;
    assert stem[..DEFAULT_DIGITS] == version;
  }

  /** Files without a version, or with one beyond k, are not there yet. */
  lemma TargetsNew(files: set<Path>, dir: string, k: nat, version: string, name: string)
    requires Counted(Names(files, Clean(dir)), k) && |version| > 0 && AllDigits(version) && Lands(dir, version, name)
    requires var v := StemVersion(Where(dir, version, name).1); v.Some? ==> v.value > k
    ensures Target(dir, version, name, "up") !in files && Target(dir, version, name, "down") !in files
  {
    assert forall q :: q in files && In(q, Clean(dir)) ==> Last(q) in Names(files, Clean(dir));
    forall direction | IsDirection(direction) ensures Target(dir, version, name, direction) !in files {
      var p, stem := Target(dir, version, name, direction), Where(dir, version, name).1;
      assert stem in Split(version + "_" + name);
      TargetName(dir, version, name, direction);
      StemDecides(stem, direction);
      assert !Counting(Last(p), k);
    }
  }

  /** The two files of a plain name are new, so making them is up to the system alone. */
  lemma PlainCreated(files: set<Path>, dir: string, version: string, name: string, w: World, k: nat)
    requires Counted(Names(files, Clean(dir)), k) && Denotes(version, k + 1) && '/' !in name
    ensures var (ok, after) := Created(files, dir, version, name, w);
      var up, down := Target(dir, version, name, "up"), Target(dir, version, name, "down");
      && up !in files && down !in files
      && (ok <==> w.mkdir && w.up.Works? && w.down.Works?)
      && after == files + (if w.mkdir && !w.up.Refused? then {up} else {})
                        + (if w.mkdir && w.up.Works? && !w.down.Refused? then {down} else {})
  {
    PlainVersion(dir, version, name, k + 1);
    TargetsNew(files, dir, k, version, name);
    TargetsDiffer(dir, version, name);
  }

  lemma PlainCounted(files: set<Path>, dir: string, version: string, name: string, w: World, k: nat)
    requires Counted(Names(files, Clean(dir)), k) && Denotes(version, k + 1) && '/' !in name
    ensures Counted(Names(Created(files, dir, version, name, w).1, Clean(dir)),
                    if w.mkdir && !w.up.Refused? then k + 1 else k)
  {
    PlainVersion(dir, version, name, k + 1);
    PlainCreated(files, dir, version, name, w, k);
    if w.mkdir && !w.up.Refused? {
      CountsOnExactly(files, dir, k, version, name, w);
    }
  }

  /**
   For a name without a slash the count goes on exactly when the first file is made; the
   command succeeds exactly when both work.  If only the second fails, the first stays.
   */
  lemma PlainNameCounts(files: set<Path>, dir: string, name: string, names: seq<string>, w: World, k: nat)
    requires Counted(Names(files, Clean(dir)), k) && Sorted(Names(files, Clean(dir)), names) && '/' !in name
    ensures var (r, after) := Outcome(files, dir, name, names, w);
      var fits, made := k + 1 < 1_000_000, w.mkdir && !w.up.Refused?;
      var both := w.mkdir && w.up.Works? && w.down.Works?;
      && Counted(Names(after, Clean(dir)), if fits && made then k + 1 else k)
      && (fits && both ==>
            && r.Ok? && Denotes(r.value, k + 1)
            && after == files + {Target(dir, r.value, name, "up")} + {Target(dir, r.value, name, "down")}
            && Target(dir, r.value, name, "up") !in files && Target(dir, r.value, name, "down") !in files)
      && (!(fits && both) ==> r == Err(if fits then NotCreated else TooLarge))
      && (!(fits && made) ==> after == files)
  {
    CountedNext(dir, Names(files, Clean(dir)), names, k);
    assert Pow10(DEFAULT_DIGITS) == 1_000_000;
    if k + 1 < 1_000_000 {
      var version := NextSeqVersion(Matches(dir, names), DEFAULT_DIGITS).value;
      PlainCreated(files, dir, version, name, w, k);
      PlainCounted(files, dir, version, name, w, k);
    }
  }

  /** The files a call makes for a slash-free name are called version_name.up.sql and .down.sql. */
  lemma PlainNamesMade(files: set<Path>, dir: string, name: string, names: seq<string>, k: nat)
    requires Counted(Names(files, Clean(dir)), k) && Sorted(Names(files, Clean(dir)), names) && '/' !in name
    requires k + 1 < 1_000_000
    ensures var (r, after) := Outcome(files, dir, name, names, World(true, Works, Works));
      && r.Ok? && |r.value| == 6 && AllDigits(r.value) && Value(r.value) == k + 1
      && Names(after, Clean(dir)) == Names(files, Clean(dir))
           + {r.value + "_" + name + "." + "up" + ".sql", r.value + "_" + name + "." + "down" + ".sql"}
  {
    var w := World(true, Works, Works);
    PlainNameCounts(files, dir, name, names, w, k);
    var version := Outcome(files, dir, name, names, w).0.value;
    PlainLands(dir, version, name);
    PlainCreated(files, dir, version, name, w, k);
    CreatedNames(files, dir, version, name, w);
  }

  // ---- Repeated calls ----

  datatype State = State(dir: string, files: set<Path>)

  datatype Call = Call(name: string, names: seq<string>, w: World)

  /** One call, with the listing the directory really has. */
  ghost function Step(s: State, c: Call): Option<State> {
    if Sorted(Names(s.files, Clean(s.dir)), c.names) then
      Some(s.(files := Outcome(s.files, s.dir, c.name, c.names, c.w).1))
    else None
  }

  /** The call gets as far as making its first file. */
  predicate MakesUp(c: Call) {
    c.w.mkdir && !c.w.up.Refused?
  }

  function Capped(n: nat): nat {
    if n < 1_000_000 then n else 999_999
  }

  /**
   From a directory without files, calls with slash-free names count 1, 2, 3 and so on
   without a gap or a repeat: one for each call that made a file, up to the last version of
   six digits.
   */
  lemma {:induction false} RepeatedNewCounts(s0: State, calls: seq<Call>, s: State)
    requires Names(s0.files, Clean(s0.dir)) == {} && Run(Step, s0, calls) == Some(s)
    requires forall i :: 0 <= i < |calls| ==> '/' !in calls[i].name
    ensures s.dir == s0.dir && Counted(Names(s.files, Clean(s.dir)), Capped(Count(MakesUp, calls)))
    decreases |calls|
  {
    assert Pow10(DEFAULT_DIGITS) == 1_000_000;
    if calls != [] {
      var front, c := calls[..|calls| - 1], calls[|calls| - 1];
      var m := Run(Step, s0, front).value;
      RepeatedNewCounts(s0, front, m);
      PlainNameCounts(m.files, m.dir, c.name, c.names, c.w, Capped(Count(MakesUp, front)));
    }
  }

  // ---- Names with a slash ----

  const ALL_WELL: World := World(true, Works, Works)

  /** The name "x/../000009_y" makes version 9 behind version k < 8 and reports success. */
  lemma SkippedVersions(files: set<Path>, dir: string, k: nat, version: string)
    requires Counted(Names(files, Clean(dir)), k) && Denotes(version, k + 1) && k < 8
    ensures var after := Created(files, dir, version, "x/../000009_y", ALL_WELL);
      after.0 && !exists j: nat :: Counted(Names(after.1, Clean(dir)), j)
  {
    var name := "x/../000009_y";
    assert name == "x" + "/../" + "000009_y";
    NineIsNine();
    DotsLandBare(dir, version, "x", "000009_y");
    BareFiles(files, dir, k, version, "000009_y");
    TargetsNew(files, dir, k, version, name);
    CountsOnExactly(files, dir, k, version, name, ALL_WELL);
  }

  lemma NineIsNine()
    ensures StemVersion("000009_y") == Some(9)
  {
    var s := "000009";
    assert "000009_y"[..6] == s;
    assert s[..5] == "00000" && s[..5][..4] == "0000" && s[..5][..4][..3] == "000";
    assert "000"[..2] == "00" && "00"[..1] == "0" && "0"[..0] == "";
    assert Value("000") == 0;
    assert Value("00000") == 0;
  }

  /** A name that lands bare, with no version up to k, leaves both files when all goes well. */
  lemma BareFiles(files: set<Path>, dir: string, k: nat, version: string, stem: string)
    requires Counted(Names(files, Clean(dir)), k) && Denotes(version, k + 1) && '/' !in stem
    requires StemVersion(stem).Some? ==> StemVersion(stem).value > k
    ensures var name := "x" + "/../" + stem;
      && Created(files, dir, version, name, ALL_WELL).0
      && Added(files, dir, version, name, ALL_WELL) == {stem + "." + "up" + EXT} + {stem + "." + "down" + EXT}
  {
    var name := "x" + "/../" + stem;
    DotsLandBare(dir, version, "x", stem);
    TargetsNew(files, dir, k, version, name);
    TargetsDiffer(dir, version, name);
  }

  lemma BareNames(files: set<Path>, dir: string, k: nat, version: string, stem: string)
    requires Counted(Names(files, Clean(dir)), k) && Denotes(version, k + 1) && '/' !in stem
    requires StemVersion(stem).Some? ==> StemVersion(stem).value > k
    ensures var after := Created(files, dir, version, "x" + "/../" + stem, ALL_WELL);
      && after.0
      && Names(after.1, Clean(dir))
         == Names(files, Clean(dir)) + ({stem + "." + "up" + EXT} + {stem + "." + "down" + EXT})
  {
    BareFiles(files, dir, k, version, stem);
    CreatedNames(files, dir, version, "x" + "/../" + stem, ALL_WELL);
  }

  lemma UnversionedTexts()
    ensures "x" + "/../" + "y" == "x/../y"
    ensures "y" + "." + "up" + EXT == "y.up.sql" && "y" + "." + "down" + EXT == "y.down.sql"
  {
  }

  /** The name "x/../y" leaves files without a version, and every later call fails on them. */
  lemma UnversionedFiles(files: set<Path>, dir: string, k: nat, version: string, names: seq<string>)
    requires Counted(Names(files, Clean(dir)), k) && Denotes(version, k + 1)
    requires Sorted(Names(Created(files, dir, version, "x/../y", ALL_WELL).1, Clean(dir)), names)
    ensures Created(files, dir, version, "x/../y", ALL_WELL).0
    ensures NextSeqVersion(Matches(dir, names), DEFAULT_DIGITS) == Err(Malformed)
  {
    BareNames(files, dir, k, version, "y");
    UnversionedTexts();
    UnversionedLast(Names(files, Clean(dir)), k, names);
    LastMalformed(dir, names);
  }

  lemma LastMalformed(dir: string, names: seq<string>)
    requires names != [] && names[|names| - 1] == "y.up.sql"
    ensures NextSeqVersion(Matches(dir, names), DEFAULT_DIGITS) == Err(Malformed)
  {
    BaseJoin(dir, "y.up.sql");
    assert Matches(dir, names)[|names| - 1] == dir + "/" + "y.up.sql";
    assert '_' !in "y.up.sql";
  }

  lemma CountingBefore(f: string, k: nat)
    requires Counting(f, k)
    ensures !LexLe("y.up.sql", f)
  {
    BasePlain(f);
    assert f[0] == f[..DEFAULT_DIGITS][0];
  }

  lemma DownBefore()
    ensures !LexLe("y.up.sql", "y.down.sql")
  {
    var up, down := "y.up.sql", "y.down.sql";
    assert up[1..] == ".up.sql" && down[1..] == ".down.sql";
    assert up[1..][1..] == "up.sql" && down[1..][1..] == "down.sql";
  }

  lemma LastOfListing(files: set<string>, names: seq<string>, top: string)
    requires Sorted(files, names) && top in files && HasSuffix(top, EXT)
    requires forall f :: f in files && f != top ==> !LexLe(top, f)
    ensures names != [] && names[|names| - 1] == top
  {
    assert top in names;
    assert names[|names| - 1] in names;
  }

  lemma UnversionedLast(files: set<string>, k: nat, names: seq<string>)
    requires Counted(files, k) && Sorted(files + ({"y.up.sql"} + {"y.down.sql"}), names)
    ensures names != [] && names[|names| - 1] == "y.up.sql"
  {
    var up := "y.up.sql";
    assert up[4..] == EXT;
    forall f | f in files ensures !LexLe(up, f) {
      assert Counting(f, k);
      CountingBefore(f, k);
    }
    DownBefore();
    LastOfListing(files + ({up} + {"y.down.sql"}), names, up);
  }

  // ---- Versions that are taken ----

  /** One of the files is a migration of six digits with version v. */
  ghost predicate Bears(files: set<string>, v: nat) {
    exists f :: f in files && HasSuffix(f, EXT) && WellNamed(f, DEFAULT_DIGITS) && Version(f, DEFAULT_DIGITS) == v
  }

  lemma SixDigitsEqual(a: string, b: string)
    requires |a| == |b| && AllDigits(a) && AllDigits(b) && Value(a) == Value(b)
    ensures a == b
    decreases |a|
  {
    if a != "" {
      SixDigitsEqual(a[..|a| - 1], b[..|b| - 1]);
      assert a == a[..|a| - 1] + [a[|a| - 1]] && b == b[..|b| - 1] + [b[|b| - 1]];
    }
  }

  lemma TakenExactly(files: set<string>, version: string, v: nat)
    requires Denotes(version, v) && forall f :: f in files ==> '/' !in f
    ensures Taken(files, version) <==> Bears(files, v)
  {
    if Taken(files, version) {
      var f :| f in files && version + "_" <= f && HasSuffix(f, EXT);
      BasePlain(f);
      assert f[..DEFAULT_DIGITS] == (version + "_")[..DEFAULT_DIGITS] == version;
      assert f[DEFAULT_DIGITS] == (version + "_")[DEFAULT_DIGITS];
    }
    if Bears(files, v) {
      var f :| f in files && HasSuffix(f, EXT) && WellNamed(f, DEFAULT_DIGITS) && Version(f, DEFAULT_DIGITS) == v;
      BasePlain(f);
      SixDigitsEqual(f[..DEFAULT_DIGITS], version);
      assert f[..DEFAULT_DIGITS + 1] == version + "_";
    }
  }

  /**
   Exactly when the command finds its version taken, whatever is in the directory: the last
   file's number n, cut off at its first underscore, can be read, and some file bears n + 1
   (or 0 after 2^64 - 1) in six digits.
   */
  lemma DuplicateExactly(
      files: set<Path>, dir: string, name: string, names: seq<string>, w: World, p: string, rest: string)
    requires Sorted(Names(files, Clean(dir)), names) && forall f :: f in Names(files, Clean(dir)) ==> '/' !in f
    requires names != [] && names[|names| - 1] == p + "_" + rest && '_' !in p
    ensures Outcome(files, dir, name, names, w).0 == Err(Duplicate)
       <==> && p != "" && AllDigits(p) && Value(p) < 0x1_0000_0000_0000_0000
            && Bears(Names(files, Clean(dir)), Following(Value(p)))
  {
    var matches, inDir := Matches(dir, names), Names(files, Clean(dir));
    LastBase(files, dir, names);
    NextAfterLast(matches, DEFAULT_DIGITS, p, rest);
    var r := NextSeqVersion(matches, DEFAULT_DIGITS);
    if p != "" && AllDigits(p) && Value(p) < UINT64 {
      var v := Following(Value(p));
      BornInSixDigits(inDir, v);
      if r.Ok? {
        assert Denotes(r.value, v);
        TakenExactly(inDir, r.value, v);
      }
    }
  }

  lemma LastBase(files: set<Path>, dir: string, names: seq<string>)
    requires Sorted(Names(files, Clean(dir)), names) && names != []
    requires forall f :: f in Names(files, Clean(dir)) ==> '/' !in f
    ensures Base(Matches(dir, names)[|names| - 1]) == names[|names| - 1]
  {
    assert names[|names| - 1] in names;
    BaseJoin(dir, names[|names| - 1]);
  }

  lemma BornInSixDigits(files: set<string>, v: nat)
    ensures Bears(files, v) ==> v < Pow10(DEFAULT_DIGITS)
  {
    if Bears(files, v) {
      var f :| f in files && HasSuffix(f, EXT) && WellNamed(f, DEFAULT_DIGITS) && Version(f, DEFAULT_DIGITS) == v;
      ValueBound(Base(f)[..DEFAULT_DIGITS]);
    }
  }

  lemma {:induction false} PrefixIsSmaller(p: string, d: nat)
    requires AllDigits(p) && d <= |p|
    ensures AllDigits(p[..d]) && Value(p[..d]) <= Value(p)
    decreases |p|
  {
    if d < |p| {
      PrefixIsSmaller(p[..|p| - 1], d);
      assert p[..|p| - 1][..d] == p[..d];
    } else {
      assert p[..d] == p;
    }
  }

  /** A name behind which another one of six digits comes does not have the higher number. */
  lemma SixDigitsOrder(f: string, p: string, rest: string)
    requires '/' !in f && WellNamed(f, DEFAULT_DIGITS) && AllDigits(p) && |p| >= DEFAULT_DIGITS
    requires LexLe(f, p + "_" + rest)
    ensures Version(f, DEFAULT_DIGITS) <= Value(p)
  {
    BasePlain(f);
    PrefixIsSmaller(p, DEFAULT_DIGITS);
    assert (p + "_" + rest)[..DEFAULT_DIGITS] == p[..DEFAULT_DIGITS];
    LexPrefix(f, p + "_" + rest, DEFAULT_DIGITS);
    LexIsNumeric(f[..DEFAULT_DIGITS], p[..DEFAULT_DIGITS]);
  }

  lemma {:induction false} LexRefl(a: string)
    ensures LexLe(a, a)
  {
    if a != "" {
      LexRefl(a[1..]);
    }
  }

  lemma LastIsGreatest(files: set<string>, names: seq<string>, f: string)
    requires Sorted(files, names) && f in files && HasSuffix(f, EXT)
    ensures names != [] && LexLe(f, names[|names| - 1])
  {
    assert f in names;
    LexRefl(f);
  }

  /** Only a last file with fewer than six digits, or with the greatest number, leads there. */
  lemma DuplicateNeedsShortNumber(files: set<string>, names: seq<string>, p: string, rest: string)
    requires Sorted(files, names) && forall f :: f in files ==> '/' !in f
    requires names != [] && names[|names| - 1] == p + "_" + rest
    requires AllDigits(p) && Value(p) < UINT64 && Bears(files, Following(Value(p)))
    ensures |p| < DEFAULT_DIGITS || Value(p) == 0xFFFF_FFFF_FFFF_FFFF
  {
    if |p| >= DEFAULT_DIGITS {
      NoLaterNumber(files, names, p, rest, Following(Value(p)));
    }
  }

  lemma NoLaterNumber(files: set<string>, names: seq<string>, p: string, rest: string, v: nat)
    requires Sorted(files, names) && forall f :: f in files ==> '/' !in f
    requires names != [] && names[|names| - 1] == p + "_" + rest
    requires AllDigits(p) && |p| >= DEFAULT_DIGITS && Bears(files, v)
    ensures v <= Value(p)
  {
    var f :| f in files && HasSuffix(f, EXT) && WellNamed(f, DEFAULT_DIGITS) && Version(f, DEFAULT_DIGITS) == v;
    LastIsGreatest(files, names, f);
    SixDigitsOrder(f, p, rest);
  }

  /** Behind "000010_a.sql" and "9_b.sql" the command counts to 10 and finds it taken. */
  lemma TakenBehindNine(files: set<Path>, dir: string, name: string, names: seq<string>, w: World)
    requires Names(files, Clean(dir)) == {"000010_a.sql", "9_b.sql"}
    requires Sorted(Names(files, Clean(dir)), names)
    ensures Outcome(files, dir, name, names, w) == (Err(Duplicate), files)
  {
    TakenBehind(files, dir, name, names, w, "000010_a.sql", "9_b.sql");
  }

  lemma TakenBehind(
      files: set<Path>, dir: string, name: string, names: seq<string>, w: World, ten: string, nine: string)
    requires ten == "000010_a.sql" && nine == "9_b.sql"
    requires Names(files, Clean(dir)) == {ten, nine} && Sorted(Names(files, Clean(dir)), names)
    ensures Outcome(files, dir, name, names, w) == (Err(Duplicate), files)
  {
    NineLast(nine, ten);
    NineReads(nine);
    TenBears(Names(files, Clean(dir)), ten);
    LastOfListing(Names(files, Clean(dir)), names, nine);
    DuplicateExactly(files, dir, name, names, w, "9", "b.sql");
  }

  lemma NineLast(nine: string, ten: string)
    requires nine == "9_b.sql" && ten == "000010_a.sql"
    ensures HasSuffix(nine, EXT) && !LexLe(nine, ten) && '/' !in nine && '/' !in ten
  {
    assert nine[3..] == EXT;
  }

  lemma NineReads(nine: string)
    requires nine == "9_b.sql"
    ensures nine == "9" + "_" + "b.sql" && '_' !in "9" && AllDigits("9") && Value("9") == 9
  {
    assert "9"[..0] == "";
  }

  lemma TenBears(files: set<string>, ten: string)
    requires ten == "000010_a.sql" && ten in files
    ensures Bears(files, 10)
  {
    assert ten[8..] == EXT && ten[..6] == "000010";
    TenIsTen();
    BasePlain(ten);
  }

  lemma TenIsTen()
    ensures AllDigits("000010") && Value("000010") == 10
  {
    var s := "000010";
    assert s[..5] == "00001" && s[..5][..4] == "0000" && s[..5][..4][..3] == "000";
    assert "000"[..2] == "00" && "00"[..1] == "0" && "0"[..0] == "";
    assert Value("000") == 0;
    assert Value("00001") == 1;
  }
}
