/** Image references: registry/name:tag (cmd/tools/lab/config.go). */
module ImageRef {

  datatype Image = Image(registry: string, name: string, tag: string)

  const EMPTY: Image := Image("", "", "")

  function Print(img: Image): string {
    if |img.registry| == 0 then img.name + ":" + img.tag
    else img.registry + "/" + img.name + ":" + img.tag
  }

  function Count(s: string, c: char): nat {
    if s == "" then 0 else (if s[0] == c then 1 else 0) + Count(s[1..], c)
  }

  /** The first index of c, or -1. */
  function IndexByte(s: string, c: char): (i: int)
    ensures -1 <= i < |s|
    ensures i >= 0 ==> s[i] == c && c !in s[..i]
    ensures i < 0 ==> c !in s
  {
    if s == "" then -1
    else if s[0] == c then 0
    else
      var i := IndexByte(s[1..], c);
      if i < 0 then -1 else i + 1
  }

  /** The last index of c, or -1. */
  function LastIndexByte(s: string, c: char): (i: int)
    ensures -1 <= i < |s|
    ensures i >= 0 ==> s[i] == c && c !in s[i + 1..]
    ensures i < 0 ==> c !in s
  {
    if s == "" then -1
    else if s[|s| - 1] == c then |s| - 1
    else
      var front, last := s[..|s| - 1], s[|s| - 1];
      var i := LastIndexByte(front, c);
      assert s == front + [last];
      assert i >= 0 ==> s[i + 1..] == front[i + 1..] + [last];
      i
  }

  /** The registry is what comes before the first slash, if there is more than one slash. */
  function SplitRegistry(s: string): (string, string) {
    if Count(s, '/') > 1 then
      var ix := IndexByte(s, '/');
      if ix >= 0 then (s[..ix], s[ix + 1..]) else ("", s)
    else ("", s)
  }

  /** What parsing leaves in an image that held old: fields not found in s stay as they were. */
  function Parsed(was: Image, s: string): Image {
    var (registry, rest) := SplitRegistry(s);
    var ix := LastIndexByte(rest, ':');
    Image(if Count(s, '/') > 1 then registry else was.registry,
          if ix > 0 then rest[..ix] else rest,
          if ix > 0 then rest[ix + 1..] else was.tag)
  }

  class ImageObject {
    var img: Image

    constructor ()
      ensures img == EMPTY
    {
      img := EMPTY;
    }

    method Parse(text: string) returns (ok: bool)
      modifies this
      ensures ok <==> text != ""
      ensures img == if ok then Parsed(old(img), text) else old(img)
    {
      var s := text;
      if |s| == 0 {
        return false;
      }
      if Count(s, '/') > 1 {
        SlashFound(s);
        var ix := IndexByte(s, '/');
        img := img.(registry := s[..ix]);
        s := s[ix + 1..];
      }
      var ix := LastIndexByte(s, ':');
      if ix > 0 {
        img := img.(tag := s[ix + 1..]);
        s := s[..ix];
      }
      img := img.(name := s);
      return true;
    }
  }

  // ---- Counting and finding ----

  lemma {:induction false} SlashFound(s: string)
    ensures Count(s, '/') > 0 <==> '/' in s
  {
    if s != "" {
      SlashFound(s[1..]);
      assert s == [s[0]] + s[1..];
    }
  }

  lemma {:induction false} CountConcat(a: string, b: string, c: char)
    ensures Count(a + b, c) == Count(a, c) + Count(b, c)
  {
    if a == "" {
      assert a + b == b;
    } else {
      CountConcat(a[1..], b, c);
      assert (a + b)[1..] == a[1..] + b;
    }
  }

  lemma LastIs(s: string, c: char, i: nat)
    requires i < |s| && s[i] == c
    ensures LastIndexByte(s, c) >= i
    ensures LastIndexByte(s, c) == i <==> c !in s[i + 1..]
  {
    var j := LastIndexByte(s, c);
    assert forall k :: j < k < |s| ==> s[k] == s[j + 1..][k - j - 1];
    assert forall k :: i < k < |s| ==> s[k] == s[i + 1..][k - i - 1];
  }

  lemma FirstIs(s: string, c: char, i: nat)
    requires i < |s| && s[i] == c
    ensures 0 <= IndexByte(s, c) <= i
    ensures IndexByte(s, c) == i <==> c !in s[..i]
  {
    var j := IndexByte(s, c);
    assert forall k :: 0 <= k < j ==> s[k] == s[..j][k];
    assert forall k :: 0 <= k < i ==> s[k] == s[..i][k];
  }

  /** Splitting at the last colon undoes joining with a colon-free tag. */
  lemma LastColon(name: string, tag: string)
    ensures LastIndexByte(name + ":" + tag, ':') >= |name|
    ensures LastIndexByte(name + ":" + tag, ':') == |name| <==> ':' !in tag
  {
    var s := name + ":" + tag;
    assert s[|name| + 1..] == tag;
    LastIs(s, ':', |name|);
  }

  /** Splitting at the first slash undoes joining with a slash-free registry. */
  lemma FirstSlash(registry: string, rest: string)
    ensures 0 <= IndexByte(registry + "/" + rest, '/') <= |registry|
    ensures IndexByte(registry + "/" + rest, '/') == |registry| <==> '/' !in registry
  {
    var s := registry + "/" + rest;
    assert s[..|registry|] == registry;
    FirstIs(s, '/', |registry|);
  }

  // ---- What parsing means ----

  /** With two slashes or more, what stands before the first is the registry; else it stays. */
  predicate RegistryPart(was: Image, s: string, img: Image, rest: string) {
    if Count(s, '/') > 1 then s == img.registry + "/" + rest && '/' !in img.registry
    else rest == s && img.registry == was.registry
  }

  /** A colon that is not in front parts the name from the tag at the last colon; else the tag stays. */
  predicate TagPart(was: Image, rest: string, img: Image) {
    if exists k :: 0 < k < |rest| && rest[k] == ':' then
      rest == img.name + ":" + img.tag && img.name != "" && ':' !in img.tag
    else img.name == rest && img.tag == was.tag
  }

  lemma SplitIsPart(was: Image, s: string, img: Image, rest: string)
    requires RegistryPart(was, s, img, rest)
    ensures SplitRegistry(s) == (if Count(s, '/') > 1 then img.registry else "", rest)
  {
    if Count(s, '/') > 1 {
      FirstSlash(img.registry, rest);
      assert s[..|img.registry|] == img.registry && s[|img.registry| + 1..] == rest;
    }
  }

  lemma LastColonFound(rest: string)
    ensures LastIndexByte(rest, ':') > 0 <==> exists k :: 0 < k < |rest| && rest[k] == ':'
  {
    if k :| 0 < k < |rest| && rest[k] == ':' {
      LastIs(rest, ':', k);
    }
  }

  lemma TagIsPart(was: Image, rest: string, img: Image)
    requires TagPart(was, rest, img)
    ensures var ix := LastIndexByte(rest, ':');
      if ix > 0 then img.name == rest[..ix] && img.tag == rest[ix + 1..] else img.name == rest && img.tag == was.tag
  {
    LastColonFound(rest);
    if LastIndexByte(rest, ':') > 0 {
      LastColon(img.name, img.tag);
    }
  }

  lemma CutAt(s: string, i: nat)
    requires i < |s|
    ensures s == s[..i] + [s[i]] + s[i + 1..]
  {
  }

  lemma ParsedRegistry(was: Image, s: string)
    ensures RegistryPart(was, s, Parsed(was, s), SplitRegistry(s).1)
  {
    SlashFound(s);
    if Count(s, '/') > 1 {
      CutAt(s, IndexByte(s, '/'));
    }
  }

  lemma ParsedTag(was: Image, s: string)
    ensures TagPart(was, SplitRegistry(s).1, Parsed(was, s))
  {
    var rest := SplitRegistry(s).1;
    var ix := LastIndexByte(rest, ':');
    LastColonFound(rest);
    if ix > 0 {
      CutAt(rest, ix);
    }
  }

  lemma PartsMakeParsed(was: Image, s: string, img: Image, rest: string)
    requires RegistryPart(was, s, img, rest) && TagPart(was, rest, img)
    ensures img == Parsed(was, s)
  {
    SplitIsPart(was, s, img, rest);
    TagIsPart(was, rest, img);
  }

  /**
   Exactly what a text makes of any image: the parts it names are taken over, and a registry
   or tag that it does not name stays as it was.
   */
  lemma ParsedExactly(was: Image, s: string, img: Image)
    ensures img == Parsed(was, s) <==> exists rest :: RegistryPart(was, s, img, rest) && TagPart(was, rest, img)
  {
    ParsedRegistry(was, s);
    ParsedTag(was, s);
    if rest :| RegistryPart(was, s, img, rest) && TagPart(was, rest, img) {
      PartsMakeParsed(was, s, img, rest);
    }
  }

  // ---- Printing, then parsing ----

  /** What an image must look like for its text to be read back. */
  predicate Readable(img: Image) {
    && img.name != ""
    && ':' !in img.tag
    && '/' !in img.registry
    && (if img.registry != "" then '/' in img.name || '/' in img.tag
        else Count(img.name, '/') + Count(img.tag, '/') <= 1)
  }

  function NameTag(rest: string): (string, string) {
    var ix := LastIndexByte(rest, ':');
    if ix > 0 then (rest[..ix], rest[ix + 1..]) else (rest, "")
  }

  /** The part after the registry comes apart again exactly for a name and a colon-free tag. */
  lemma NameTagBack(name: string, tag: string)
    ensures NameTag(name + ":" + tag) == (name, tag) <==> name != "" && ':' !in tag
  {
    LastColon(name, tag);
    var s, ix := name + ":" + tag, LastIndexByte(name + ":" + tag, ':');
    if ix == |name| {
      assert s[..ix] == name && s[ix + 1..] == tag;
    }
    assert |s| == |name| + 1 + |tag|;
  }

  lemma CountJoin(a: string, c: char, b: string)
    ensures Count(a + [c] + b, '/') == Count(a, '/') + (if c == '/' then 1 else 0) + Count(b, '/')
  {
    assert a + [c] + b == a + ([c] + b);
    CountConcat(a, [c] + b, '/');
    assert ([c] + b)[1..] == b;
  }

  lemma PrintCounts(img: Image)
    ensures Count(Print(img), '/')
         == (if img.registry == "" then 0 else Count(img.registry, '/') + 1)
            + Count(img.name, '/') + Count(img.tag, '/')
  {
    var rest := img.name + ":" + img.tag;
    CountJoin(img.name, ':', img.tag);
    if img.registry != "" {
      CountJoin(img.registry, '/', rest);
      assert Print(img) == img.registry + "/" + rest;
    }
  }

  lemma RegistryBack(img: Image)
    ensures SplitRegistry(Print(img)) == (img.registry, img.name + ":" + img.tag)
       <==> '/' !in img.registry && (if img.registry != "" then '/' in img.name || '/' in img.tag
                                     else Count(img.name, '/') + Count(img.tag, '/') <= 1)
  {
    PrintCounts(img);
    SlashFound(img.registry);
    SlashFound(img.name);
    SlashFound(img.tag);
    var s, rest := Print(img), img.name + ":" + img.tag;
    if img.registry != "" {
      assert s == img.registry + "/" + rest;
      FirstSlash(img.registry, rest);
      assert s[..|img.registry|] == img.registry && s[|img.registry| + 1..] == rest;
    } else if Count(s, '/') > 1 {
      SlashFound(s);
      assert |s[IndexByte(s, '/') + 1..]| < |rest|;
    }
  }

  lemma ParsedParts(s: string)
    ensures var split := SplitRegistry(s);
      Parsed(EMPTY, s) == Image(split.0, NameTag(split.1).0, NameTag(split.1).1)
  {
    SlashFound(s);
  }

  /** The image comes back exactly when the registry comes apart and then the rest does. */
  lemma PartsDecide(img: Image)
    ensures Parsed(EMPTY, Print(img)) == img <==>
      && SplitRegistry(Print(img)) == (img.registry, img.name + ":" + img.tag)
      && NameTag(img.name + ":" + img.tag) == (img.name, img.tag)
  {
    var s, rest := Print(img), img.name + ":" + img.tag;
    var split := SplitRegistry(s);
    ParsedParts(s);
    if split.0 == img.registry && split.1 != rest {
      LengthsDisagree(img, split.1);
    }
  }

  /** Printing an image and parsing the text gives the image back exactly when it is readable. */
  lemma PrintThenParse(img: Image)
    ensures Parsed(EMPTY, Print(img)) == img <==> Readable(img)
  {
    PartsDecide(img);
    RegistryBack(img);
    NameTagBack(img.name, img.tag);
  }

  lemma LengthsDisagree(img: Image, rest: string)
    requires SplitRegistry(Print(img)) == (img.registry, rest) && rest != img.name + ":" + img.tag
    ensures NameTag(rest) != (img.name, img.tag)
  {
    var s, want := Print(img), img.name + ":" + img.tag;
    SlashFound(s);
    if img.registry == "" && Count(s, '/') > 1 {
      assert |rest| == |want| - 1;
      Joined(rest);
    }
  }

  /** Splitting loses nothing but the colon. */
  lemma Joined(rest: string)
    ensures LastIndexByte(rest, ':') > 0 <==> NameTag(rest).0 + ":" + NameTag(rest).1 == rest
    ensures LastIndexByte(rest, ':') <= 0 <==> NameTag(rest).0 + NameTag(rest).1 == rest
  {
    var ix := LastIndexByte(rest, ':');
    if ix > 0 {
      CutAt(rest, ix);
      assert |rest[..ix] + rest[ix + 1..]| < |rest|;
    } else {
      assert |rest + ":" + ""| > |rest| && rest + "" == rest;
    }
  }

  // ---- Parsing, then printing ----

  /** A tag is found, and if there is a registry part it is not empty. */
  predicate Printable(s: string) {
    LastIndexByte(SplitRegistry(s).1, ':') > 0 && (Count(s, '/') > 1 ==> s[0] != '/')
  }

  /** With an empty registry part the leading slash is lost. */
  lemma LeadingSlashLost(rest: string)
    requires '/' in rest
    ensures NameTag(rest).0 + ":" + NameTag(rest).1 != "/" + rest
  {
    var ix := LastIndexByte(rest, ':');
    var printed := NameTag(rest).0 + ":" + NameTag(rest).1;
    if ix > 0 {
      assert |printed| == |rest|;
    } else {
      assert printed == rest + ":";
      assert printed[|rest|] == ':';
      assert ("/" + rest)[|rest|] == rest[|rest| - 1];
    }
  }

  lemma CountBehind(a: string, c: char, b: string)
    ensures Count(a + [c] + b, c) == Count(a, c) + 1 + Count(b, c)
  {
    CountConcat(a + [c], b, c);
    CountConcat(a, [c], c);
    assert Count([c], c) == 1;
  }

  lemma RegistryJoined(s: string)
    requires Count(s, '/') > 1
    ensures s == SplitRegistry(s).0 + "/" + SplitRegistry(s).1
    ensures '/' in SplitRegistry(s).1
    ensures SplitRegistry(s).0 == "" <==> s[0] == '/'
  {
    SlashFound(s);
    var ix := IndexByte(s, '/');
    assert s == s[..ix] + ['/'] + s[ix + 1..];
    CountBehind(s[..ix], '/', s[ix + 1..]);
    SlashFound(s[..ix]);
    SlashFound(s[ix + 1..]);
    assert ix > 0 ==> s[0] == s[..ix][0];
  }

  lemma SamePrefix(a: string, n: string, t: string, c: string)
    ensures a + n + ":" + t == a + c <==> n + ":" + t == c
  {
    var left := a + n + ":" + t;
    assert left[|a|..] == n + ":" + t && (a + c)[|a|..] == c;
    assert left == a + (n + ":" + t);
  }

  lemma PrintSplit(registry: string, rest: string)
    requires registry != "" || '/' in rest
    ensures Print(Image(registry, NameTag(rest).0, NameTag(rest).1)) == registry + "/" + rest
       <==> registry != "" && LastIndexByte(rest, ':') > 0
  {
    var n, t := NameTag(rest).0, NameTag(rest).1;
    if registry == "" {
      LeadingSlashLost(rest);
      assert registry + "/" + rest == "/" + rest;
    } else {
      Joined(rest);
      SamePrefix(registry + "/", n, t, rest);
    }
  }

  /** Parsing a text into an empty image and printing it gives the text back exactly then. */
  lemma ParseThenPrint(s: string)
    requires s != ""
    ensures Print(Parsed(EMPTY, s)) == s <==> Printable(s)
  {
    var registry, rest := SplitRegistry(s).0, SplitRegistry(s).1;
    assert Parsed(EMPTY, s) == Image(registry, NameTag(rest).0, NameTag(rest).1);
    if Count(s, '/') > 1 {
      RegistryJoined(s);
      PrintSplit(registry, rest);
    } else {
      Joined(rest);
    }
  }
}
