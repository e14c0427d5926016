/** Channel names of chat rooms and the pattern a connection subscribes to (pkg/app/chat/comms.go). */
module Channels {
  import opened Decimal

  function Channel(room: int, user: int): string {
    "room:" + Itoa(room) + ":user:" + Itoa(user)
  }

  function Pattern(room: int): string {
    "room:" + Itoa(room) + ":user:" + "*"
  }

  /** Redis matching of a channel against a pattern of literals, ? and *. */
  predicate Glob(p: string, s: string)
    decreases |p| + |s|
  {
    if p == "" then s == ""
    else if p[0] == '*' then Glob(p[1..], s) || (s != "" && Glob(p, s[1..]))
    else s != "" && (p[0] == '?' || p[0] == s[0]) && Glob(p[1..], s[1..])
  }

  ghost predicate Literal(s: string) {
    forall i :: 0 <= i < |s| ==> s[i] != '*' && s[i] != '?'
  }

  lemma {:induction false} StarMatchesAll(s: string)
    ensures Glob("*", s)
  {
    if s != "" {
      StarMatchesAll(s[1..]);
    }
  }

  lemma {:induction false} GlobPrefix(lit: string, s: string)
    requires Literal(lit)
    ensures Glob(lit + "*", s) <==> lit <= s
  {
    if lit == "" {
      StarMatchesAll(s);
      assert lit + "*" == "*";
    } else {
      assert (lit + "*")[1..] == lit[1..] + "*";
      if s != "" && lit[0] == s[0] {
        GlobPrefix(lit[1..], s[1..]);
      }
    }
  }

  ghost predicate Colonless(s: string) {
    forall i :: 0 <= i < |s| ==> s[i] != ':'
  }

  /** What comes before the first colon is determined by any longer text. */
  lemma BeforeColon(a: string, x: string, b: string, y: string)
    requires Colonless(a) && Colonless(b)
    requires a + ":" + x <= b + ":" + y
    ensures a == b
  {
    var s, t := a + ":" + x, b + ":" + y;
    assert s[|a|] == ':' && t[|b|] == ':';
    assert forall i :: 0 <= i < |a| ==> s[i] == a[i];
    assert forall i :: 0 <= i < |b| ==> t[i] == b[i];
    assert |a| == |b|;
    assert s[..|a|] == a && t[..|b|] == b;
  }

  lemma PrefixDecides(a: string, b: string, u: string)
    requires Colonless(a) && Colonless(b)
    ensures "room:" + a + ":user:" <= "room:" + b + ":user:" + u <==> a == b
  {
    var s, t := "room:" + a + ":user:", "room:" + b + ":user:" + u;
    if s <= t {
      assert s[5..] == a + ":" + "user:" && t[5..] == b + ":" + ("user:" + u);
      BeforeColon(a, "user:", b, "user:" + u);
    }
  }

  /** A subscription hears exactly its own room, whoever publishes. */
  lemma PatternHearsOnlyItsRoom(room: int, other: int, user: int)
    ensures Glob(Pattern(room), Channel(other, user)) <==> room == other
  {
    ItoaChars(room);
    ItoaChars(other);
    GlobPrefix("room:" + Itoa(room) + ":user:", Channel(other, user));
    PrefixDecides(Itoa(room), Itoa(other), Itoa(user));
    if Itoa(room) == Itoa(other) {
      ItoaInjective(room, other);
    }
  }
}
