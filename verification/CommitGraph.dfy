/** The commit graph that the pool and the merge tool read through libgit2. */
module CommitGraph {
  // A commit is named by its index in the graph; its parents were written before it.
  type Commit = nat
  type Dag = seq<set<Commit>>

  predicate Valid(dag: Dag) {
    forall c :: 0 <= c < |dag| ==> forall p :: p in dag[c] ==> p < c
  }

  /** The commit itself and everything reachable from it through parent links. */
  function Ancestors(dag: Dag, c: Commit): set<Commit>
    requires Valid(dag) && c < |dag|
    decreases c
  {
    {c} + (set p, a | p in dag[c] && a in Ancestors(dag, p) :: a)
  }

  /** First component of `graph_ahead_behind`. */
  function Ahead(dag: Dag, head: Commit, main: Commit): nat
    requires Valid(dag) && head < |dag| && main < |dag|
  {
    |Ancestors(dag, head) - Ancestors(dag, main)|
  }

  lemma AncestorOfItself(dag: Dag, c: Commit)
    requires Valid(dag) && c < |dag|
    ensures c in Ancestors(dag, c)
  {
  }

  lemma {:induction false} AncestorsTransitive(dag: Dag, b: Commit, c: Commit)
    requires Valid(dag) && c < |dag| && b in Ancestors(dag, c)
    ensures b <= c && Ancestors(dag, b) <= Ancestors(dag, c)
    decreases c
  {
    if b != c {
      var p :| p in dag[c] && b in Ancestors(dag, p);
      AncestorsTransitive(dag, b, p);
    }
  }

  /** A set closed under parents holds every ancestor of its members. */
  lemma {:induction false} ClosedHoldsAncestors(dag: Dag, closed: set<Commit>, c: Commit)
    requires Valid(dag) && c < |dag| && c in closed
    requires forall s :: s in closed && s < |dag| ==> dag[s] <= closed
    ensures Ancestors(dag, c) <= closed
    decreases c
  {
    forall p | p in dag[c] ensures Ancestors(dag, p) <= closed {
      ClosedHoldsAncestors(dag, closed, p);
    }
  }

  /** Writing new commits never changes the ancestors of an old one. */
  lemma {:induction false} AncestorsOfPrefix(dag: Dag, longer: Dag, c: Commit)
    requires Valid(dag) && Valid(longer) && dag <= longer && c < |dag|
    ensures Ancestors(longer, c) == Ancestors(dag, c)
    decreases c
  {
    assert longer[c] == dag[c];
    forall p | p in dag[c]
      ensures Ancestors(longer, p) == Ancestors(dag, p)
    {
      AncestorsOfPrefix(dag, longer, p);
    }
  }

  /** A branch is zero commits ahead of main exactly when main already contains its tip. */
  lemma AheadZeroIffMerged(dag: Dag, head: Commit, main: Commit)
    requires Valid(dag) && head < |dag| && main < |dag|
    ensures Ahead(dag, head, main) == 0 <==> head in Ancestors(dag, main)
    ensures head in Ancestors(dag, main) ==> Ancestors(dag, head) <= Ancestors(dag, main)
  {
    if head in Ancestors(dag, main) {
      AncestorsTransitive(dag, head, main);
      assert Ancestors(dag, head) - Ancestors(dag, main) == {};
    } else {
      assert head in Ancestors(dag, head) - Ancestors(dag, main);
    }
  }

  lemma ParentsAreAncestors(dag: Dag, c: Commit, from: Commit)
    requires Valid(dag) && from < |dag| && c in Ancestors(dag, from)
    ensures c < |dag| && dag[c] <= Ancestors(dag, from)
  {
    AncestorsTransitive(dag, c, from);
    forall p | p in dag[c] ensures p in Ancestors(dag, from) {
      assert p in Ancestors(dag, p);
    }
  }

  /** The revision walk: visit parents until nothing new turns up or the commit is met. */
  method IsReachableFrom(dag: Dag, commit: Commit, from: Commit) returns (found: bool)
    requires Valid(dag) && from < |dag|
    ensures found <==> commit in Ancestors(dag, from)
  {
    ghost var reach := Ancestors(dag, from);
    var seen: set<Commit> := {};
    var todo: set<Commit> := {from};
    while todo != {}
      invariant seen <= reach && todo <= reach
      invariant commit !in seen
      invariant from in seen || from in todo
      invariant seen !! todo
      invariant forall s :: s in seen && s < |dag| ==> dag[s] <= seen + todo
      decreases reach - seen
    {
      var c :| c in todo;
      if c == commit {
        return true;
      }
      ParentsAreAncestors(dag, c, from);
      ghost var before := seen + todo;
      seen := seen + {c};
      todo := (todo + dag[c]) - seen;
      assert before <= seen + todo;
    }
    ClosedHoldsAncestors(dag, seen, from);
    return false;
  }
}
