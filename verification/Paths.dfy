/** Slash-separated paths and their lexical cleaning, as Go's path/filepath does it. */
module Paths {

  /** A cleaned path: no empty, "." or needless ".." elements. */
  datatype Path = Path(rooted: bool, elems: seq<string>)

  /** The index of the first c, or the length if there is none. */
  function IndexOf(s: string, c: char): (i: nat)
    ensures i <= |s| && (i < |s| ==> s[i] == c) && c !in s[..i]
  {
    if s == "" || s[0] == c then 0 else IndexOf(s[1..], c) + 1
  }

  /** The pieces between slashes. */
  function Split(s: string): (r: seq<string>)
    ensures |r| > 0 && forall e :: e in r ==> '/' !in e
  {
    if s == "" then [""]
    else
      var r := Split(s[1..]);
      if s[0] == '/' then [""] + r else [[s[0]] + r[0]] + r[1..]
  }

  /** The last piece. */
  function Base(path: string): string {
    var r := Split(path);
    r[|r| - 1]
  }

  /** One more element: empty ones and "." vanish, ".." takes back the element before it. */
  function Push(rooted: bool, done: seq<string>, e: string): seq<string> {
    if e == "" || e == "." then done
    else if e == ".." && done != [] && done[|done| - 1] != ".." then done[..|done| - 1]
    else if e == ".." && rooted then done
    else done + [e]
  }

  function Walk(rooted: bool, done: seq<string>, es: seq<string>): seq<string>
    decreases |es|
  {
    if es == [] then done else Push(rooted, Walk(rooted, done, es[..|es| - 1]), es[|es| - 1])
  }

  function Clean(s: string): Path {
    var rooted := s != "" && s[0] == '/';
    Path(rooted, Walk(rooted, [], Split(s)))
  }

  /** filepath.Join of a directory and a name that is not empty. */
  function Join(dir: string, name: string): Path {
    if dir == "" then Clean(name) else Clean(dir + "/" + name)
  }

  // ---- Splitting and walking step by step ----

  lemma {:induction false} SplitPlain(s: string)
    requires '/' !in s
    ensures Split(s) == [s]
  {
    if s != "" {
      SplitPlain(s[1..]);
      assert s == [s[0]] + s[1..];
    }
  }

  lemma BasePlain(f: string)
    requires '/' !in f
    ensures Base(f) == f
  {
    SplitPlain(f);
  }

  lemma {:induction false} SplitSlash(a: string, b: string)
    ensures Split(a + "/" + b) == Split(a) + Split(b)
  {
    var s := a + "/" + b;
    if a == "" {
      assert s[1..] == b;
    } else {
      assert s[1..] == a[1..] + "/" + b;
      SplitSlash(a[1..], b);
    }
  }

  lemma BaseJoin(dir: string, name: string)
    requires '/' !in name
    ensures Base(dir + "/" + name) == name
  {
    SplitSlash(dir, name);
    SplitPlain(name);
  }

  lemma AppendToFront(a: string, r: seq<string>, b: string)
    requires r != []
    ensures var q, t := [a + r[0]] + r[1..], r[..|r| - 1] + [r[|r| - 1] + b];
      [a + t[0]] + t[1..] == q[..|q| - 1] + [q[|q| - 1] + b]
  {
    if |r| == 1 {
      assert a + (r[0] + b) == a + r[0] + b;
    }
  }

  /** Text without a slash goes to the last piece. */
  lemma {:induction false} SplitAppend(a: string, b: string)
    requires '/' !in b
    ensures var r := Split(a); Split(a + b) == r[..|r| - 1] + [r[|r| - 1] + b]
  {
    if a == "" {
      SplitPlain(b);
      assert a + b == b;
    } else {
      assert (a + b)[1..] == a[1..] + b;
      SplitAppend(a[1..], b);
      var r := Split(a[1..]);
      if a[0] == '/' {
        assert [""] + (r[..|r| - 1] + [r[|r| - 1] + b]) == ([""] + r)[..|r|] + [r[|r| - 1] + b];
      } else {
        AppendToFront([a[0]], r, b);
      }
    }
  }

  lemma {:induction false} WalkConcat(rooted: bool, done: seq<string>, a: seq<string>, b: seq<string>)
    ensures Walk(rooted, done, a + b) == Walk(rooted, Walk(rooted, done, a), b)
    decreases |b|
  {
    if b == [] {
      assert a + b == a;
    } else {
      WalkConcat(rooted, done, a, b[..|b| - 1]);
      assert (a + b)[..|a + b| - 1] == a + b[..|b| - 1];
    }
  }

  /** A name is walked from the directory's own clean path. */
  lemma JoinWalks(dir: string, name: string)
    requires name != "" && name[0] != '/'
    ensures Join(dir, name) == Path(Clean(dir).rooted, Walk(Clean(dir).rooted, Clean(dir).elems, Split(name)))
  {
    var rooted := Clean(dir).rooted;
    if dir == "" {
      assert Walk(false, [], Split("")) == [] by {
        assert Split("")[..0] == [];
      }
    } else {
      SplitSlash(dir, name);
      WalkConcat(rooted, [], Split(dir), Split(name));
    }
  }
}
