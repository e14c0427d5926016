/**
 Role membership in a database server: an edge (group, member) makes the member part of the
 group, and membership is transitive.  The server refuses an edge that would close a cycle.
 */
module Membership {

  type Edges = set<(string, string)>

  /** The groups one membership edge away from xs. */
  function Above(m: Edges, xs: set<string>): set<string> {
    set e | e in m && e.1 in xs :: e.0
  }

  function Groups(m: Edges): set<string> {
    set e | e in m :: e.0
  }

  /** Everything in xs and every group something in xs belongs to. */
  function Closure(m: Edges, xs: set<string>): set<string>
    decreases Groups(m) - xs
  {
    if Above(m, xs) <= xs then xs
    else
      assert Above(m, xs) <= Groups(m);
      assert Groups(m) - (xs + Above(m, xs)) < Groups(m) - xs by {
        var x :| x in Above(m, xs) && x !in xs;
        assert x in Groups(m) - xs;
      }
      Closure(m, xs + Above(m, xs))
  }

  ghost predicate Closed(m: Edges, xs: set<string>) {
    forall e :: e in m && e.1 in xs ==> e.0 in xs
  }

  /** The closure is the least closed superset. */
  lemma {:induction false} ClosureLeast(m: Edges, xs: set<string>, bound: set<string>)
    requires xs <= bound && Closed(m, bound)
    ensures xs <= Closure(m, xs) <= bound && Closed(m, Closure(m, xs))
    decreases Groups(m) - xs
  {
    if !(Above(m, xs) <= xs) {
      assert Groups(m) - (xs + Above(m, xs)) < Groups(m) - xs by {
        var x :| x in Above(m, xs) && x !in xs;
        assert x in Groups(m) - xs;
      }
      ClosureLeast(m, xs + Above(m, xs), bound);
    } else {
      forall e | e in m && e.1 in xs ensures e.0 in xs {
        assert e.0 in Above(m, xs);
      }
    }
  }

  lemma ClosureSound(m: Edges, xs: set<string>)
    ensures xs <= Closure(m, xs) && Closed(m, Closure(m, xs))
  {
    ClosureLeast(m, xs, xs + Groups(m));
  }

  /** x belongs to y, directly or not, or is y. */
  predicate Member(m: Edges, x: string, y: string) {
    y in Closure(m, {x})
  }

  lemma MemberTransitive(m: Edges, x: string, y: string, z: string)
    requires Member(m, x, y) && Member(m, y, z)
    ensures Member(m, x, z)
  {
    ClosureSound(m, {x});
    ClosureLeast(m, {y}, Closure(m, {x}));
  }

  lemma EdgeIsMember(m: Edges, group: string, member: string)
    requires (group, member) in m
    ensures Member(m, member, group)
  {
    ClosureSound(m, {member});
  }

  lemma MemberMonotone(m: Edges, n: Edges, x: string, y: string)
    requires m <= n && Member(m, x, y)
    ensures Member(n, x, y)
  {
    ClosureSound(n, {x});
    ClosureLeast(m, {x}, Closure(n, {x}));
  }

  ghost predicate Acyclic(m: Edges) {
    forall group, member :: (group, member) in m ==> !Member(m, group, member)
  }

  /** What the server checks before it adds an edge. */
  predicate Accepts(m: Edges, group: string, member: string) {
    !Member(m, group, member)
  }

  /** An accepted edge keeps the memberships free of cycles. */
  lemma AcceptedKeepsAcyclic(m: Edges, group: string, member: string)
    requires Acyclic(m) && Accepts(m, group, member)
    ensures Acyclic(m + {(group, member)})
  {
    var n := m + {(group, member)};
    forall g, x | (g, x) in n ensures !Member(n, g, x) {
      // What g reaches with the new edge.
      var reach := Closure(m, {g});
      var bound := if member in reach then reach + Closure(m, {group}) else reach;
      ClosureSound(m, {g});
      ClosureSound(m, {group});
      assert Closed(n, bound);
      ClosureLeast(n, {g}, bound);
      if x in bound {
        if (g, x) in m {
          assert x in Closure(m, {group}) && member in reach;
          EdgeIsMember(m, g, x);
          MemberTransitive(m, group, x, g);
          MemberTransitive(m, group, g, member);
        }
        assert false;
      }
    }
  }

  /** Conversely, every edge of an acyclic membership is accepted before any part of the rest. */
  lemma AcyclicAccepts(m: Edges, n: Edges, group: string, member: string)
    requires Acyclic(n) && m <= n && (group, member) in n
    ensures Accepts(m, group, member)
  {
    if Member(m, group, member) {
      MemberMonotone(m, n, group, member);
    }
  }
}
