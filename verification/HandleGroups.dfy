/** Handle groups a move makes one, each represented by the name its members agree on. */
module HandleGroups {
  import opened Strings

  const ARGUMENT_PREFIX := "arg:"

  predicate IsArgument(name: string) {
    StartsWith(name, ARGUMENT_PREFIX)
  }

  /** The name a group prefers: one that is not a parameter's, then the lesser. */
  predicate Ahead(a: string, b: string) {
    if IsArgument(a) != IsArgument(b) then IsArgument(b) else Less(a, b)
  }

  lemma AheadTotal(a: string, b: string)
    ensures a != b ==> Ahead(a, b) || Ahead(b, a)
    ensures !(Ahead(a, b) && Ahead(b, a)) && (Ahead(a, b) ==> a != b)
  {
    LessTrichotomy(a, b);
  }

  lemma AheadTransitive(a: string, b: string, c: string)
    requires Ahead(a, b) && Ahead(b, c)
    ensures Ahead(a, c)
  {
    hide IsArgument;
    if Less(a, b) && Less(b, c) {
      LessTransitive(a, b, c);
    }
  }

  // ----- groups linked by moves ----------------------------------------------------------------------

  type Links = set<(string, string)>

  predicate Joined(links: Links, a: string, b: string) {
    (a, b) in links || (b, a) in links
  }

  ghost predicate IsChain(links: Links, chain: seq<string>) {
    chain != [] && forall i | 0 < i < |chain| :: Joined(links, chain[i - 1], chain[i])
  }

  ghost predicate Linked(links: Links, a: string, b: string) {
    exists chain :: IsChain(links, chain) && chain[0] == a && chain[|chain| - 1] == b
  }

  lemma LinkedToItself(links: Links, a: string)
    ensures Linked(links, a, a)
  {
    assert IsChain(links, [a]);
  }

  lemma LinkedByLink(links: Links, a: string, b: string)
    requires Joined(links, a, b)
    ensures Linked(links, a, b)
  {
    assert IsChain(links, [a, b]);
  }

  lemma LinkedOnward(links: Links, a: string, b: string, c: string)
    requires Linked(links, a, b) && Linked(links, b, c)
    ensures Linked(links, a, c)
  {
    var p :| IsChain(links, p) && p[0] == a && p[|p| - 1] == b;
    var q :| IsChain(links, q) && q[0] == b && q[|q| - 1] == c;
    var r := p + q[1..];
    forall i | 0 < i < |r|
      ensures Joined(links, r[i - 1], r[i])
    {
      if i >= |p| {
        assert r[i] == q[i - |p| + 1] && r[i - 1] == q[i - |p|];
      }
    }
    assert IsChain(links, r);
  }

  lemma LinkedBack(links: Links, a: string, b: string)
    requires Linked(links, a, b)
    ensures Linked(links, b, a)
  {
    var p :| IsChain(links, p) && p[0] == a && p[|p| - 1] == b;
    var r := seq(|p|, i requires 0 <= i < |p| => p[|p| - 1 - i]);
    forall i | 0 < i < |r|
      ensures Joined(links, r[i - 1], r[i])
    {
      assert Joined(links, p[|p| - 1 - i], p[|p| - i]);
    }
    assert IsChain(links, r);
  }

  lemma MoreLinks(links: Links, more: Links, a: string, b: string)
    requires links <= more && Linked(links, a, b)
    ensures Linked(more, a, b)
  {
    var p :| IsChain(links, p) && p[0] == a && p[|p| - 1] == b;
    assert IsChain(more, p);
  }

  /** The name that stands for the group of `a`: of all the names linked to it, the one ahead of the others. */
  ghost predicate Represents(links: Links, root: string, a: string) {
    Linked(links, a, root) && forall b | Linked(links, a, b) :: b == root || Ahead(root, b)
  }

  /** The name of storage reached through a parameter. */
  ghost predicate IsParameterName(name: string) {
    |name| >= 4 && name[0] == 'a' && name[1] == 'r' && name[2] == 'g' && name[3] == ':'
  }

  /** The least of the linked names that are no parameter's, or the least of them all when every one is. */
  ghost predicate IsLeastName(links: Links, root: string, a: string) {
    && Linked(links, a, root)
    && (forall b | Linked(links, a, b) && b != root && (IsParameterName(root) || !IsParameterName(b)) :: Less(root, b))
    && (IsParameterName(root) ==> forall b | Linked(links, a, b) :: IsParameterName(b))
  }

  lemma RepresentsLeastName(links: Links, root: string, a: string)
    ensures Represents(links, root, a) <==> IsLeastName(links, root, a)
  {
    hide Linked, Less;
    assert forall b :: IsArgument(b) <==> IsParameterName(b) by {
      forall b
        ensures IsArgument(b) <==> IsParameterName(b)
      {
        if |b| >= 4 {
          assert b[..4] == [b[0], b[1], b[2], b[3]];
        }
      }
    }
    hide IsArgument, IsParameterName;
    if IsLeastName(links, root, a) {
      forall b | Linked(links, a, b) && b != root
        ensures Ahead(root, b)
      {
        AheadTotal(root, b);
      }
    }
    if Represents(links, root, a) {
      forall b | Linked(links, a, b) && b != root
        ensures Ahead(root, b)
      {
      }
    }
  }

  lemma RepresentativeUnique(links: Links, a: string, x: string, y: string)
    requires Represents(links, x, a) && Represents(links, y, a)
    ensures x == y
  {
    AheadTotal(x, y);
  }

  // ----- parents ---------------------------------------------------------------------------------------

  type Parents = map<string, string>

  ghost predicate LeadsAhead(parent: Parents, a: string)
    requires a in parent
  {
    parent[a] in parent && (parent[a] == a || Ahead(parent[a], a))
  }

  ghost predicate Forest(parent: Parents) {
    forall a {:trigger LeadsAhead(parent, a)} | a in parent :: LeadsAhead(parent, a)
  }

  ghost function AheadOf(parent: Parents, a: string): set<string> {
    set b | b in parent && Ahead(b, a)
  }

  lemma ParentIsNearer(parent: Parents, a: string)
    requires Forest(parent) && a in parent && parent[a] != a
    ensures parent[a] in parent && AheadOf(parent, parent[a]) < AheadOf(parent, a)
  {
    assert LeadsAhead(parent, a);
    forall b | b in AheadOf(parent, parent[a])
      ensures b in AheadOf(parent, a)
    {
      AheadTransitive(b, parent[a], a);
    }
    AheadTotal(parent[a], parent[a]);
    assert parent[a] in AheadOf(parent, a);
  }

  ghost function Root(parent: Parents, a: string): (root: string)
    requires Forest(parent) && a in parent
    ensures root in parent && parent[root] == root && (root == a || Ahead(root, a))
    decreases AheadOf(parent, a)
  {
    if parent[a] == a then a
    else
      ParentIsNearer(parent, a);
      assert LeadsAhead(parent, a);
      var root := Root(parent, parent[a]);
      assert root == a || Ahead(root, a) by {
        if root != parent[a] {
          AheadTransitive(root, parent[a], a);
        }
      }
      root
  }

  /** Pointing a group at a root it already leads to, or adding a group of its own, changes no root. */
  lemma {:induction false} SameRoots(parent: Parents, name: string, to: string, a: string)
    requires Forest(parent) && a in parent && Forest(parent[name := to])
    requires if name in parent then to == Root(parent, name) else to == name
    ensures Root(parent[name := to], a) == Root(parent, a)
    decreases AheadOf(parent, a)
  {
    var after := parent[name := to];
    if parent[a] != a {
      ParentIsNearer(parent, a);
      SameRoots(parent, name, to, parent[a]);
      if a == name {
        assert Root(after, to) == to;
      }
    }
  }

  lemma PointingKeepsForest(parent: Parents, name: string, to: string)
    requires Forest(parent)
    requires if name in parent then to == Root(parent, name) else to == name
    ensures Forest(parent[name := to])
  {
    var after := parent[name := to];
    forall a | a in after
      ensures LeadsAhead(after, a)
    {
      assert a in parent ==> LeadsAhead(parent, a);
    }
  }

  /** What the parents know of the moves seen. */
  ghost predicate Knows(parent: Parents, links: Links) {
    && Forest(parent)
    && (forall a {:trigger LeadsAhead(parent, a)} | a in parent :: Linked(links, a, parent[a]))
    && (forall a, b {:trigger Joined(links, a, b)} | Joined(links, a, b) :: a in parent && b in parent && Root(parent, a) == Root(parent, b))
  }

  lemma {:induction false} LinkedToRoot(parent: Parents, links: Links, a: string)
    requires Knows(parent, links) && a in parent
    ensures Linked(links, a, Root(parent, a))
    decreases AheadOf(parent, a)
  {
    hide Linked;
    if parent[a] != a {
      ParentIsNearer(parent, a);
      assert LeadsAhead(parent, a);
      LinkedToRoot(parent, links, parent[a]);
      LinkedOnward(links, a, parent[a], Root(parent, parent[a]));
    } else {
      LinkedToItself(links, a);
    }
  }

  lemma {:induction false} ChainSharesRoot(parent: Parents, links: Links, chain: seq<string>, i: nat)
    requires Knows(parent, links) && IsChain(links, chain) && chain[0] in parent && i < |chain|
    ensures chain[i] in parent && Root(parent, chain[i]) == Root(parent, chain[0])
  {
    if i > 0 {
      ChainSharesRoot(parent, links, chain, i - 1);
      assert Joined(links, chain[i - 1], chain[i]);
    }
  }

  /** Two groups share a root exactly when moves link them. */
  lemma SharedRootIsLinked(parent: Parents, links: Links, a: string, b: string)
    requires Knows(parent, links) && a in parent && b in parent
    ensures Root(parent, a) == Root(parent, b) <==> Linked(links, a, b)
  {
    if Root(parent, a) == Root(parent, b) {
      LinkedToRoot(parent, links, a);
      LinkedToRoot(parent, links, b);
      LinkedBack(links, b, Root(parent, b));
      LinkedOnward(links, a, Root(parent, a), b);
    }
    if Linked(links, a, b) {
      var chain :| IsChain(links, chain) && chain[0] == a && chain[|chain| - 1] == b;
      ChainSharesRoot(parent, links, chain, |chain| - 1);
    }
  }

  /** The root of a group is the name that stands for it, whatever the order of the moves and of the lookups. */
  lemma RootRepresents(parent: Parents, links: Links, a: string)
    requires Knows(parent, links) && a in parent
    ensures Represents(links, Root(parent, a), a) && IsLeastName(links, Root(parent, a), a)
  {
    hide Knows, IsLeastName;
    assert Forest(parent) by { KnowsForest(parent, links); }
    LinkedToRoot(parent, links, a);
    forall b | Linked(links, a, b)
      ensures b == Root(parent, a) || Ahead(Root(parent, a), b)
    {
      LinkedKnown(parent, links, a, b);
      SharedRootIsLinked(parent, links, a, b);
    }
    RepresentsLeastName(links, Root(parent, a), a);
  }

  lemma KnowsForest(parent: Parents, links: Links)
    requires Knows(parent, links)
    ensures Forest(parent)
  {
  }

  lemma LinkedKnown(parent: Parents, links: Links, a: string, b: string)
    requires Knows(parent, links) && a in parent && Linked(links, a, b)
    ensures b in parent
  {
    var chain :| IsChain(links, chain) && chain[0] == a && chain[|chain| - 1] == b;
    ChainSharesRoot(parent, links, chain, |chain| - 1);
  }

  lemma PointingKeepsKnowledge(parent: Parents, links: Links, name: string, to: string)
    requires Knows(parent, links)
    requires if name in parent then to == Root(parent, name) else to == name
    ensures Knows(parent[name := to], links)
    ensures forall a | a in parent :: Root(parent[name := to], a) == Root(parent, a)
  {
    hide Linked, Joined;
    var after := parent[name := to];
    PointingKeepsForest(parent, name, to);
    forall a | a in parent
      ensures Root(after, a) == Root(parent, a)
    {
      SameRoots(parent, name, to, a);
    }
    if name in parent {
      LinkedToRoot(parent, links, name);
    } else {
      LinkedToItself(links, name);
    }
    forall a | a in after
      ensures Linked(links, a, after[a])
    {
      assert a in parent ==> LeadsAhead(parent, a);
    }
  }

  // ----- uniting two groups ------------------------------------------------------------------------------

  lemma {:induction false} LinkedRoots(parent: Parents, low: string, high: string, a: string)
    requires Forest(parent) && a in parent && low in parent && high in parent && Forest(parent[high := low])
    requires parent[low] == low && parent[high] == high && low != high
    ensures Root(parent[high := low], a) == if Root(parent, a) == high then low else Root(parent, a)
    decreases AheadOf(parent, a)
  {
    var after := parent[high := low];
    assert Root(after, low) == low;
    if parent[a] != a {
      ParentIsNearer(parent, a);
      LinkedRoots(parent, low, high, parent[a]);
    }
  }

  lemma UnitingKeepsKnowledge(parent: Parents, links: Links, a: string, b: string, low: string, high: string)
    requires Knows(parent, links) && a in parent && b in parent && low != high && Ahead(low, high)
    requires {low, high} == {Root(parent, a), Root(parent, b)}
    ensures Knows(parent[high := low], links + {(a, b)})
  {
    hide Linked;
    var after, more := parent[high := low], links + {(a, b)};
    assert Forest(after) by {
      forall x | x in after
        ensures LeadsAhead(after, x)
      {
        assert x in parent ==> LeadsAhead(parent, x);
      }
    }
    forall x | x in after
      ensures Linked(more, x, after[x])
    {
      assert LeadsAhead(parent, x);
      if x == high {
        UnitedRootsLinked(parent, links, a, b, low, high);
      } else {
        MoreLinks(links, more, x, parent[x]);
      }
    }
    forall x, y | Joined(more, x, y)
      ensures x in after && y in after && Root(after, x) == Root(after, y)
    {
      assert Joined(links, x, y) || (x, y) == (a, b) || (y, x) == (a, b);
      LinkedRoots(parent, low, high, x);
      LinkedRoots(parent, low, high, y);
    }
  }

  lemma UnitedRootsLinked(parent: Parents, links: Links, a: string, b: string, low: string, high: string)
    requires Knows(parent, links) && a in parent && b in parent && low != high
    requires {low, high} == {Root(parent, a), Root(parent, b)}
    ensures Linked(links + {(a, b)}, high, low)
  {
    hide Linked;
    var more := links + {(a, b)};
    var x, y := Root(parent, a), Root(parent, b);
    LinkedToRoot(parent, links, a);
    LinkedToRoot(parent, links, b);
    MoreLinks(links, more, a, x);
    MoreLinks(links, more, b, y);
    LinkedByLink(more, a, b);
    LinkedBack(more, a, x);
    LinkedOnward(more, x, a, b);
    LinkedOnward(more, x, b, y);
    LinkedBack(more, x, y);
    assert (high == x && low == y) || (high == y && low == x) by {
      assert high in {x, y} && low in {x, y};
    }
  }

  class HandleGroupAliases {
    var parent: Parents
    ghost var links: Links

    ghost predicate Valid()
      reads this
    {
      Knows(parent, links)
    }

    constructor ()
      ensures Valid() && links == {}
    {
      parent := map[];
      links := {};
    }

    /** The name that stands for a group. The parents on the way are pointed at it. */
    method Find(groupId: string) returns (root: string)
      requires Valid()
      modifies this`parent
      ensures Valid() && groupId in parent && root == Root(parent, groupId) && Represents(links, root, groupId)
      ensures IsLeastName(links, root, groupId)
      ensures forall a | a in old(parent) :: a in parent && Root(parent, a) == old(Root(parent, a))
      decreases if groupId in parent then AheadOf(parent, groupId) else {}
    {
      hide Linked, Represents, IsLeastName, AheadOf, Ahead, Joined;
      if groupId !in parent {
        PointingKeepsKnowledge(parent, links, groupId, groupId);
        parent := parent[groupId := groupId];
        root := groupId;
      } else if parent[groupId] == groupId {
        root := groupId;
      } else {
        ParentIsNearer(parent, groupId);
        root := Find(parent[groupId]);
        assert root == Root(parent, groupId);
        PointingKeepsKnowledge(parent, links, groupId, root);
        parent := parent[groupId := root];
      }
      RootRepresents(parent, links, groupId);
    }

    /** Makes two groups one. */
    method Unite(lhs: string, rhs: string)
      requires Valid()
      modifies this
      ensures Valid() && links == old(links) + {(lhs, rhs)}
    {
      hide Linked, Represents, AheadOf, Less;
      var lhsRoot := Find(lhs);
      var rhsRoot := Find(rhs);
      AheadTotal(lhsRoot, rhsRoot);
      if lhsRoot == rhsRoot {
        LinkWithin(parent, links, lhs, rhs);
        links := links + {(lhs, rhs)};
        return;
      }
      var lhsIsArgument := IsArgument(lhsRoot);
      var rhsIsArgument := IsArgument(rhsRoot);
      var low, high;
      if lhsIsArgument != rhsIsArgument {
        low, high := if lhsIsArgument then rhsRoot else lhsRoot, if lhsIsArgument then lhsRoot else rhsRoot;
      } else if Less(lhsRoot, rhsRoot) {
        low, high := lhsRoot, rhsRoot;
      } else {
        low, high := rhsRoot, lhsRoot;
      }
      UnitingKeepsKnowledge(parent, links, lhs, rhs, low, high);
      parent := parent[high := low];
      links := links + {(lhs, rhs)};
    }
  }

  lemma LinkWithin(parent: Parents, links: Links, a: string, b: string)
    requires Knows(parent, links) && a in parent && b in parent && Root(parent, a) == Root(parent, b)
    ensures Knows(parent, links + {(a, b)})
  {
    hide Linked;
    var more := links + {(a, b)};
    forall x | x in parent
      ensures Linked(more, x, parent[x])
    {
      assert LeadsAhead(parent, x);
      MoreLinks(links, more, x, parent[x]);
    }
    forall x, y | Joined(more, x, y)
      ensures x in parent && y in parent && Root(parent, x) == Root(parent, y)
    {
      assert Joined(links, x, y) || (x, y) == (a, b) || (y, x) == (a, b);
    }
  }
}
