/** The sentinel-bounded doubly-linked entity container of lib/entity.c (used for the horde,
    the bullets and the powerups), modelled over an arena of nodes addressed by handles. */
module EntityLists {
  import opened Entities

  /** The model's counterpart of an `Entity *`: a key of a list's arena. */
  type Handle = int

  /** The null pointer: no arena ever issues this handle. */
  const NoEntity: Handle := -1

  /** One heap node: the entity and its two links. */
  datatype Node = Node(ent: Entity, next: Handle, prev: Handle)

  /** No handle occurs twice. */
  ghost predicate Distinct(s: seq<Handle>) {
    forall i, j :: 0 <= i < j < |s| ==> s[i] != s[j]
  }

  /** The nodes of `full` are exactly the allocated ones. */
  ghost predicate Allocated(nodes: map<Handle, Node>, full: seq<Handle>) {
    && (forall i :: 0 <= i < |full| ==> full[i] in nodes)
    && (forall h :: h in nodes ==> h in full)
  }

  /** `next` and `prev` agree with the order of `full`. */
  ghost predicate Linked(nodes: map<Handle, Node>, full: seq<Handle>)
    requires forall i :: 0 <= i < |full| ==> full[i] in nodes
  {
    && (forall i :: 0 <= i < |full| - 1 ==> nodes[full[i]].next == full[i + 1])
    && (forall i :: 0 < i < |full| ==> nodes[full[i]].prev == full[i - 1])
  }

  /** The two ends are sentinels and nothing in between is tagged ListSentinel. */
  ghost predicate Tagged(nodes: map<Handle, Node>, full: seq<Handle>)
    requires |full| >= 2 && forall i :: 0 <= i < |full| ==> full[i] in nodes
  {
    && nodes[full[0]].ent == SentinelEntity
    && nodes[full[|full| - 1]].ent == SentinelEntity
    && (forall i :: 0 < i < |full| - 1 ==> nodes[full[i]].ent.kind != ListSentinel)
  }

  /** `full` (left sentinel, content nodes, right sentinel) is a well-formed list over `nodes`. */
  ghost predicate Chain(nodes: map<Handle, Node>, full: seq<Handle>) {
    && |full| >= 2
    && Distinct(full)
    && Allocated(nodes, full)
    && Linked(nodes, full)
    && Tagged(nodes, full)
  }

  /** The arena after linking a fresh node `h` holding `e` right after `at`. */
  ghost function InsertNodes(nodes: map<Handle, Node>, at: Handle, h: Handle, e: Entity): map<Handle, Node>
    requires at in nodes && nodes[at].next in nodes
  {
    var after := nodes[at].next;
    var n1 := nodes[h := Node(e, after, at)];
    var n2 := n1[after := n1[after].(prev := h)];
    n2[at := n2[at].(next := h)]
  }

  /** The arena after unlinking and releasing `x`. */
  ghost function RemoveNodes(nodes: map<Handle, Node>, x: Handle): map<Handle, Node>
    requires x in nodes && nodes[x].next in nodes && nodes[x].prev in nodes
  {
    var nx := nodes[x].next;
    var pv := nodes[x].prev;
    var n1 := nodes[nx := nodes[nx].(prev := pv)];
    var n2 := n1[pv := n1[pv].(next := nx)];
    n2 - {x}
  }

  /** `m` is `nodes` with a node `h` holding `e` linked between F[k] and F[k + 1]. */
  ghost predicate InsertedAt(nodes: map<Handle, Node>, m: map<Handle, Node>, F: seq<Handle>, k: nat, h: Handle, e: Entity)
    requires k + 1 < |F| && F[k] in nodes && F[k + 1] in nodes
  {
    && (forall y :: y in m <==> y in nodes || y == h)
    && m[h] == Node(e, F[k + 1], F[k])
    && m[F[k]] == nodes[F[k]].(next := h)
    && m[F[k + 1]] == nodes[F[k + 1]].(prev := h)
    && (forall y :: y in nodes && y != F[k] && y != F[k + 1] ==> m[y] == nodes[y])
  }

  /** `F` with `h` placed after its k-th element, described index by index. */
  lemma InsertIndex(F: seq<Handle>, k: nat, h: Handle, G: seq<Handle>)
    requires k < |F| && G == F[..k + 1] + [h] + F[k + 1..]
    ensures |G| == |F| + 1
    ensures forall i :: 0 <= i <= k ==> G[i] == F[i]
    ensures G[k + 1] == h
    ensures forall i :: k + 1 < i < |G| ==> G[i] == F[i - 1]
  {
  }

  lemma InsertKeepsChain(nodes: map<Handle, Node>, F: seq<Handle>, k: nat, h: Handle, e: Entity)
    requires Chain(nodes, F) && k < |F| - 1 && h !in nodes && e.kind != ListSentinel
    ensures F[k] in nodes && nodes[F[k]].next in nodes
    ensures Chain(InsertNodes(nodes, F[k], h, e), F[..k + 1] + [h] + F[k + 1..])
    ensures forall y :: y in nodes ==> y in InsertNodes(nodes, F[k], h, e) && InsertNodes(nodes, F[k], h, e)[y].ent == nodes[y].ent
    ensures forall y :: y in InsertNodes(nodes, F[k], h, e) <==> y in nodes || y == h
    ensures h in InsertNodes(nodes, F[k], h, e) && InsertNodes(nodes, F[k], h, e)[h].ent == e
  {
    assert F[k] in nodes && F[k + 1] in nodes && nodes[F[k]].next == F[k + 1];
    assert F[k] != F[k + 1];
    var m := InsertNodes(nodes, F[k], h, e);
    assert InsertedAt(nodes, m, F, k, h, e);
    var G := F[..k + 1] + [h] + F[k + 1..];
    InsertIndex(F, k, h, G);
    assert h !in F;
    InsertDistinct(F, k, h);
    InsertAllocated(nodes, m, F, k, h, e);
    InsertLinked(nodes, m, F, k, h, e);
    InsertTagged(nodes, m, F, k, h, e);
  }

  lemma InsertDistinct(F: seq<Handle>, k: nat, h: Handle)
    requires Distinct(F) && k < |F| && h !in F
    ensures Distinct(F[..k + 1] + [h] + F[k + 1..])
  {
    var G := F[..k + 1] + [h] + F[k + 1..];
    InsertIndex(F, k, h, G);
    forall i, j | 0 <= i < j < |G| ensures G[i] != G[j] {
      var a := if i <= k then i else i - 1;
      var b := if j <= k then j else j - 1;
      if i != k + 1 && j != k + 1 {
        assert G[i] == F[a] && G[j] == F[b] && a < b;
      } else if i == k + 1 {
        assert G[j] == F[b];
      } else {
        assert G[i] == F[a];
      }
    }
  }

  lemma InsertAllocated(nodes: map<Handle, Node>, m: map<Handle, Node>, F: seq<Handle>, k: nat, h: Handle, e: Entity)
    requires k + 1 < |F| && Allocated(nodes, F) && InsertedAt(nodes, m, F, k, h, e)
    ensures Allocated(m, F[..k + 1] + [h] + F[k + 1..])
  {
    var G := F[..k + 1] + [h] + F[k + 1..];
    InsertIndex(F, k, h, G);
    forall i | 0 <= i < |G| ensures G[i] in m {
      if i <= k { assert G[i] == F[i]; } else if i > k + 1 { assert G[i] == F[i - 1]; }
    }
    forall y | y in m ensures y in G {
      if y != h {
        var i :| 0 <= i < |F| && F[i] == y;
        assert G[if i <= k then i else i + 1] == y;
      }
    }
  }

  lemma InsertLinked(nodes: map<Handle, Node>, m: map<Handle, Node>, F: seq<Handle>, k: nat, h: Handle, e: Entity)
    requires k + 1 < |F| && Distinct(F) && Allocated(nodes, F) && Linked(nodes, F) && h !in F
    requires InsertedAt(nodes, m, F, k, h, e)
    ensures Allocated(m, F[..k + 1] + [h] + F[k + 1..])
    ensures Linked(m, F[..k + 1] + [h] + F[k + 1..])
  {
    var G := F[..k + 1] + [h] + F[k + 1..];
    InsertIndex(F, k, h, G);
    InsertAllocated(nodes, m, F, k, h, e);
    forall i | 0 <= i < |G| - 1 ensures m[G[i]].next == G[i + 1] {
      if i < k {
        assert G[i] == F[i] && G[i + 1] == F[i + 1] && F[i] != F[k] && F[i] != F[k + 1];
      } else if i == k + 2 {
        assert G[i] == F[k + 1] && G[i + 1] == F[k + 2];
      } else if i > k + 2 {
        assert G[i] == F[i - 1] && G[i + 1] == F[i] && F[i - 1] != F[k] && F[i - 1] != F[k + 1];
      }
    }
    forall i | 0 < i < |G| ensures m[G[i]].prev == G[i - 1] {
      if i <= k {
        assert G[i] == F[i] && G[i - 1] == F[i - 1] && F[i] != F[k + 1];
        if i == k {
          assert m[G[i]].prev == nodes[F[k]].prev;
        } else {
          assert F[i] != F[k];
        }
      } else if i > k + 2 {
        assert G[i] == F[i - 1] && G[i - 1] == F[i - 2] && F[i - 1] != F[k] && F[i - 1] != F[k + 1];
      }
    }
  }

  lemma InsertTagged(nodes: map<Handle, Node>, m: map<Handle, Node>, F: seq<Handle>, k: nat, h: Handle, e: Entity)
    requires k + 1 < |F| && Distinct(F) && Allocated(nodes, F) && Tagged(nodes, F) && h !in F && e.kind != ListSentinel
    requires InsertedAt(nodes, m, F, k, h, e)
    ensures Allocated(m, F[..k + 1] + [h] + F[k + 1..])
    ensures Tagged(m, F[..k + 1] + [h] + F[k + 1..])
  {
    var G := F[..k + 1] + [h] + F[k + 1..];
    InsertIndex(F, k, h, G);
    InsertAllocated(nodes, m, F, k, h, e);
    InsertKeepsEntities(nodes, m, F, k, h, e);
    assert G[0] == F[0] && G[|G| - 1] == F[|F| - 1];
    assert m[G[0]].ent == nodes[F[0]].ent == SentinelEntity;
    assert m[G[|G| - 1]].ent == nodes[F[|F| - 1]].ent == SentinelEntity;
    forall i | 0 < i < |G| - 1 ensures m[G[i]].ent.kind != ListSentinel {
      if i <= k {
        assert G[i] == F[i] && m[F[i]].ent == nodes[F[i]].ent;
      } else if i == k + 1 {
        assert G[i] == h;
      } else {
        assert G[i] == F[i - 1] && m[F[i - 1]].ent == nodes[F[i - 1]].ent;
      }
    }
  }

  /** Linking in a node changes no entity already there. */
  lemma InsertKeepsEntities(nodes: map<Handle, Node>, m: map<Handle, Node>, F: seq<Handle>, k: nat, h: Handle, e: Entity)
    requires k + 1 < |F| && F[k] in nodes && F[k + 1] in nodes && InsertedAt(nodes, m, F, k, h, e)
    ensures forall y :: y in nodes ==> y in m && m[y].ent == nodes[y].ent
  {
    forall y | y in nodes ensures y in m && m[y].ent == nodes[y].ent {
      if y == F[k] {
      } else if y == F[k + 1] {
      } else {
        assert m[y] == nodes[y];
      }
    }
  }

  /** `m` is `nodes` with F[j] unlinked from between F[j - 1] and F[j + 1] and released. */
  ghost predicate RemovedAt(nodes: map<Handle, Node>, m: map<Handle, Node>, F: seq<Handle>, j: nat)
    requires 0 < j < |F| - 1 && F[j - 1] in nodes && F[j + 1] in nodes
  {
    && (forall y :: y in m <==> y in nodes && y != F[j])
    && F[j - 1] in m && m[F[j - 1]] == nodes[F[j - 1]].(next := F[j + 1])
    && F[j + 1] in m && m[F[j + 1]] == nodes[F[j + 1]].(prev := F[j - 1])
    && (forall y :: y in m && y != F[j - 1] && y != F[j + 1] ==> m[y] == nodes[y])
  }

  /** `F` without its j-th element, described index by index. */
  lemma RemoveIndex(F: seq<Handle>, j: nat, G: seq<Handle>)
    requires j < |F| && G == F[..j] + F[j + 1..]
    ensures |G| == |F| - 1
    ensures forall i :: 0 <= i < j ==> G[i] == F[i]
    ensures forall i :: j <= i < |G| ==> G[i] == F[i + 1]
  {
  }

  lemma RemoveKeepsChain(nodes: map<Handle, Node>, F: seq<Handle>, j: nat)
    requires Chain(nodes, F) && 0 < j < |F| - 1
    ensures F[j] in nodes && nodes[F[j]].next == F[j + 1] && nodes[F[j]].prev == F[j - 1]
    ensures Chain(RemoveNodes(nodes, F[j]), F[..j] + F[j + 1..])
    ensures forall y :: y in RemoveNodes(nodes, F[j]) <==> y in nodes && y != F[j]
    ensures forall y :: y in RemoveNodes(nodes, F[j]) ==> RemoveNodes(nodes, F[j])[y].ent == nodes[y].ent
  {
    var x := F[j];
    assert F[j - 1] in nodes && x in nodes && F[j + 1] in nodes;
    assert nodes[x].next == F[j + 1] && nodes[x].prev == F[j - 1];
    assert F[j - 1] != F[j + 1] && F[j - 1] != x && F[j + 1] != x;
    var m := RemoveNodes(nodes, x);
    assert RemovedAt(nodes, m, F, j);
    RemoveDistinct(F, j);
    RemoveAllocated(nodes, m, F, j);
    RemoveLinked(nodes, m, F, j);
    RemoveTagged(nodes, m, F, j);
  }

  lemma RemoveDistinct(F: seq<Handle>, j: nat)
    requires Distinct(F) && j < |F|
    ensures Distinct(F[..j] + F[j + 1..])
  {
    var G := F[..j] + F[j + 1..];
    RemoveIndex(F, j, G);
    forall i, i' | 0 <= i < i' < |G| ensures G[i] != G[i'] {
      var a := if i < j then i else i + 1;
      var b := if i' < j then i' else i' + 1;
      assert G[i] == F[a] && G[i'] == F[b] && a < b;
    }
  }

  lemma RemoveAllocated(nodes: map<Handle, Node>, m: map<Handle, Node>, F: seq<Handle>, j: nat)
    requires 0 < j < |F| - 1 && Distinct(F) && Allocated(nodes, F) && RemovedAt(nodes, m, F, j)
    ensures Allocated(m, F[..j] + F[j + 1..])
  {
    var G := F[..j] + F[j + 1..];
    RemoveIndex(F, j, G);
    forall i | 0 <= i < |G| ensures G[i] in m {
      var a := if i < j then i else i + 1;
      assert G[i] == F[a] && a != j;
    }
    forall y | y in m ensures y in G {
      var i :| 0 <= i < |F| && F[i] == y;
      assert i != j;
      assert G[if i < j then i else i - 1] == y;
    }
  }

  lemma RemoveLinked(nodes: map<Handle, Node>, m: map<Handle, Node>, F: seq<Handle>, j: nat)
    requires 0 < j < |F| - 1 && Distinct(F) && Allocated(nodes, F) && Linked(nodes, F) && RemovedAt(nodes, m, F, j)
    ensures Allocated(m, F[..j] + F[j + 1..])
    ensures Linked(m, F[..j] + F[j + 1..])
  {
    var G := F[..j] + F[j + 1..];
    RemoveIndex(F, j, G);
    RemoveAllocated(nodes, m, F, j);
    forall i | 0 <= i < |G| - 1 ensures m[G[i]].next == G[i + 1] {
      if i < j - 1 {
        assert G[i] == F[i] && G[i + 1] == F[i + 1] && F[i] != F[j - 1] && F[i] != F[j + 1];
      } else if i >= j {
        assert G[i] == F[i + 1] && G[i + 1] == F[i + 2] && F[i + 1] != F[j - 1];
        if i > j { assert F[i + 1] != F[j + 1]; }
      }
    }
    forall i | 0 < i < |G| ensures m[G[i]].prev == G[i - 1] {
      if i < j {
        assert G[i] == F[i] && G[i - 1] == F[i - 1] && F[i] != F[j + 1];
        if i < j - 1 { assert F[i] != F[j - 1]; }
      } else if i > j {
        assert G[i] == F[i + 1] && G[i - 1] == F[i] && F[i + 1] != F[j - 1] && F[i + 1] != F[j + 1];
      }
    }
  }

  lemma RemoveTagged(nodes: map<Handle, Node>, m: map<Handle, Node>, F: seq<Handle>, j: nat)
    requires 0 < j < |F| - 1 && Distinct(F) && Allocated(nodes, F) && Tagged(nodes, F) && RemovedAt(nodes, m, F, j)
    ensures Allocated(m, F[..j] + F[j + 1..])
    ensures Tagged(m, F[..j] + F[j + 1..])
  {
    var G := F[..j] + F[j + 1..];
    RemoveIndex(F, j, G);
    RemoveAllocated(nodes, m, F, j);
    forall y | y in m ensures m[y].ent == nodes[y].ent {
    }
    assert G[0] == F[0] && G[|G| - 1] == F[|F| - 1];
    assert m[G[0]].ent == nodes[F[0]].ent == SentinelEntity;
    assert m[G[|G| - 1]].ent == nodes[F[|F| - 1]].ent == SentinelEntity;
    forall i | 0 < i < |G| - 1 ensures m[G[i]].ent.kind != ListSentinel {
      var a := if i < j then i else i + 1;
      assert G[i] == F[a] && 0 < a < |F| - 1;
    }
  }

  /** The entities held by the nodes `ids`, in that order. */
  function EntitiesOf(ids: seq<Handle>, nodes: map<Handle, Node>): (es: seq<Entity>)
    requires forall i :: 0 <= i < |ids| ==> ids[i] in nodes
    ensures |es| == |ids|
    ensures forall i :: 0 <= i < |ids| ==> es[i] == nodes[ids[i]].ent
  {
    seq(|ids|, i requires 0 <= i < |ids| => nodes[ids[i]].ent)
  }

  /** The node reached from `h` by following `next` n times (NoEntity once off the arena). */
  ghost function Follow(nodes: map<Handle, Node>, h: Handle, n: nat): Handle
    decreases n
  {
    if n == 0 then h else if h in nodes then Follow(nodes, nodes[h].next, n - 1) else NoEntity
  }

  /** The node reached from `h` by following `prev` n times. */
  ghost function FollowBack(nodes: map<Handle, Node>, h: Handle, n: nat): Handle
    decreases n
  {
    if n == 0 then h else if h in nodes then FollowBack(nodes, nodes[h].prev, n - 1) else NoEntity
  }

  /** Walking `next` from any node of a chain visits the following nodes in order. */
  lemma {:induction false} FollowAlongChain(nodes: map<Handle, Node>, full: seq<Handle>, j: nat, n: nat)
    requires Chain(nodes, full) && j + n < |full|
    ensures Follow(nodes, full[j], n) == full[j + n]
    decreases n
  {
    if n > 0 {
      assert full[j] in nodes && nodes[full[j]].next == full[j + 1];
      FollowAlongChain(nodes, full, j + 1, n - 1);
    }
  }

  /** Walking `prev` from any node of a chain visits the preceding nodes in reverse order. */
  lemma {:induction false} FollowBackAlongChain(nodes: map<Handle, Node>, full: seq<Handle>, j: nat, n: nat)
    requires Chain(nodes, full) && n <= j < |full|
    ensures FollowBack(nodes, full[j], n) == full[j - n]
    decreases n
  {
    if n > 0 {
      assert full[j] in nodes && nodes[full[j]].prev == full[j - 1];
      FollowBackAlongChain(nodes, full, j - 1, n - 1);
    }
  }

  /** From the left sentinel, `next` reaches the right sentinel after passing every content node,
      and `prev` from the right sentinel gives the same nodes in reverse. */
  lemma SentinelsReachEachOther(nodes: map<Handle, Node>, full: seq<Handle>)
    requires Chain(nodes, full)
    ensures forall i :: 0 <= i < |full| ==> Follow(nodes, full[0], i) == full[i]
    ensures forall i :: 0 <= i < |full| ==> FollowBack(nodes, full[|full| - 1], |full| - 1 - i) == full[i]
    ensures Follow(nodes, full[0], |full| - 1) == full[|full| - 1]
    ensures FollowBack(nodes, full[|full| - 1], |full| - 1) == full[0]
  {
    forall i | 0 <= i < |full| ensures Follow(nodes, full[0], i) == full[i] {
      FollowAlongChain(nodes, full, 0, i);
    }
    forall i | 0 <= i < |full| ensures FollowBack(nodes, full[|full| - 1], |full| - 1 - i) == full[i] {
      FollowBackAlongChain(nodes, full, |full| - 1, |full| - 1 - i);
    }
  }

  lemma FullOfInsert(l: Handle, C: seq<Handle>, r: Handle, k: nat, h: Handle)
    requires k <= |C|
    ensures [l] + (C[..k] + [h] + C[k..]) + [r] == ([l] + C + [r])[..k + 1] + [h] + ([l] + C + [r])[k + 1..]
  {
    var F := [l] + C + [r];
    assert F[..k + 1] == [l] + C[..k];
    assert F[k + 1..] == C[k..] + [r];
  }

  lemma FullOfRemove(l: Handle, C: seq<Handle>, r: Handle, j: nat)
    requires j < |C|
    ensures [l] + (C[..j] + C[j + 1..]) + [r] == ([l] + C + [r])[..j + 1] + ([l] + C + [r])[j + 2..]
  {
    var F := [l] + C + [r];
    assert F[..j + 1] == [l] + C[..j];
    assert F[j + 2..] == C[j + 1..] + [r];
  }

  lemma EntitiesOfInsert(C: seq<Handle>, nodes: map<Handle, Node>, m: map<Handle, Node>, k: nat, h: Handle, e: Entity)
    requires k <= |C| && forall i :: 0 <= i < |C| ==> C[i] in nodes && C[i] in m && m[C[i]].ent == nodes[C[i]].ent
    requires h in m && m[h].ent == e
    ensures forall i :: 0 <= i < |C[..k] + [h] + C[k..]| ==> (C[..k] + [h] + C[k..])[i] in m
    ensures EntitiesOf(C[..k] + [h] + C[k..], m) == EntitiesOf(C, nodes)[..k] + [e] + EntitiesOf(C, nodes)[k..]
  {
    var D := C[..k] + [h] + C[k..];
    forall i | 0 <= i < |D| ensures D[i] in m {
      if i < k { assert D[i] == C[i]; } else if i > k { assert D[i] == C[i - 1]; }
    }
    var a := EntitiesOf(D, m);
    var b := EntitiesOf(C, nodes)[..k] + [e] + EntitiesOf(C, nodes)[k..];
    assert |a| == |b|;
    forall i | 0 <= i < |a| ensures a[i] == b[i] {
      if i < k { assert D[i] == C[i]; } else if i > k { assert D[i] == C[i - 1]; }
    }
  }

  lemma EntitiesOfRemove(C: seq<Handle>, nodes: map<Handle, Node>, m: map<Handle, Node>, j: nat)
    requires j < |C| && forall i :: 0 <= i < |C| ==> C[i] in nodes
    requires forall i :: 0 <= i < |C| && i != j ==> C[i] in m && m[C[i]].ent == nodes[C[i]].ent
    ensures forall i :: 0 <= i < |C| && i != j ==> C[i] in m
    ensures EntitiesOf(C[..j] + C[j + 1..], m) == EntitiesOf(C, nodes)[..j] + EntitiesOf(C, nodes)[j + 1..]
  {
    var D := C[..j] + C[j + 1..];
    forall i | 0 <= i < |D| ensures D[i] in m {
      if i < j { assert D[i] == C[i]; } else { assert D[i] == C[i + 1]; }
    }
    var a := EntitiesOf(D, m);
    var b := EntitiesOf(C, nodes)[..j] + EntitiesOf(C, nodes)[j + 1..];
    assert |a| == |b|;
    forall i | 0 <= i < |a| ensures a[i] == b[i] {
      if i < j { assert D[i] == C[i]; } else { assert D[i] == C[i + 1]; }
    }
  }

  /** Linking `h` holding `e` after the k-th node of [l] + C + [r]: the new chain, its entities
      and what stays the same, all on values. */
  lemma InsertIntoList(nodes: map<Handle, Node>, l: Handle, C: seq<Handle>, r: Handle, k: nat, h: Handle, e: Entity)
    requires Chain(nodes, [l] + C + [r]) && k <= |C| && h !in nodes && e.kind != ListSentinel
    ensures ([l] + C + [r])[k] in nodes && nodes[([l] + C + [r])[k]].next in nodes
    ensures forall i :: 0 <= i < |C| ==> C[i] in nodes
    ensures Chain(InsertNodes(nodes, ([l] + C + [r])[k], h, e), [l] + (C[..k] + [h] + C[k..]) + [r])
    ensures forall i :: 0 <= i < |C[..k] + [h] + C[k..]| ==> (C[..k] + [h] + C[k..])[i] in InsertNodes(nodes, ([l] + C + [r])[k], h, e)
    ensures EntitiesOf(C[..k] + [h] + C[k..], InsertNodes(nodes, ([l] + C + [r])[k], h, e))
         == EntitiesOf(C, nodes)[..k] + [e] + EntitiesOf(C, nodes)[k..]
    ensures forall y :: y in InsertNodes(nodes, ([l] + C + [r])[k], h, e) <==> y in nodes || y == h
    ensures forall y :: y in nodes ==> InsertNodes(nodes, ([l] + C + [r])[k], h, e)[y].ent == nodes[y].ent
    ensures InsertNodes(nodes, ([l] + C + [r])[k], h, e)[h].ent == e
  {
    var F := [l] + C + [r];
    InsertKeepsChain(nodes, F, k, h, e);
    var m := InsertNodes(nodes, F[k], h, e);
    FullOfInsert(l, C, r, k, h);
    forall i | 0 <= i < |C| ensures C[i] in nodes {
      assert C[i] == F[i + 1];
    }
    EntitiesOfInsert(C, nodes, m, k, h, e);
  }

  /** Unlinking the j-th content node of [l] + C + [r], on values. */
  lemma RemoveFromList(nodes: map<Handle, Node>, l: Handle, C: seq<Handle>, r: Handle, j: nat)
    requires Chain(nodes, [l] + C + [r]) && j < |C|
    ensures C[j] in nodes && nodes[C[j]].next in nodes && nodes[C[j]].prev in nodes
    ensures forall i :: 0 <= i < |C| ==> C[i] in nodes
    ensures Chain(RemoveNodes(nodes, C[j]), [l] + (C[..j] + C[j + 1..]) + [r])
    ensures forall i :: 0 <= i < |C| && i != j ==> C[i] in RemoveNodes(nodes, C[j])
    ensures EntitiesOf(C[..j] + C[j + 1..], RemoveNodes(nodes, C[j])) == EntitiesOf(C, nodes)[..j] + EntitiesOf(C, nodes)[j + 1..]
    ensures forall y :: y in RemoveNodes(nodes, C[j]) <==> y in nodes && y != C[j]
    ensures forall y :: y in RemoveNodes(nodes, C[j]) ==> RemoveNodes(nodes, C[j])[y].ent == nodes[y].ent
  {
    var F := [l] + C + [r];
    assert F[j + 1] == C[j];
    RemoveKeepsChain(nodes, F, j + 1);
    FullOfRemove(l, C, r, j);
    RemoveKeepsOthers(nodes, l, C, r, j);
    EntitiesOfRemove(C, nodes, RemoveNodes(nodes, C[j]), j);
  }

  /** Unlinking the j-th content node keeps every other content node and its entity. */
  lemma RemoveKeepsOthers(nodes: map<Handle, Node>, l: Handle, C: seq<Handle>, r: Handle, j: nat)
    requires Chain(nodes, [l] + C + [r]) && j < |C|
    ensures C[j] in nodes && nodes[C[j]].next in nodes && nodes[C[j]].prev in nodes
    ensures forall i :: 0 <= i < |C| ==> C[i] in nodes
    ensures forall i :: 0 <= i < |C| && i != j ==>
      C[i] in RemoveNodes(nodes, C[j]) && RemoveNodes(nodes, C[j])[C[i]].ent == nodes[C[i]].ent
  {
    var F := [l] + C + [r];
    assert F[j + 1] == C[j] && F[j + 2] == nodes[C[j]].next && F[j] == nodes[C[j]].prev;
    forall i | 0 <= i < |C| ensures C[i] in nodes {
      assert C[i] == F[i + 1];
    }
    forall i | 0 <= i < |C| && i != j
      ensures C[i] in RemoveNodes(nodes, C[j]) && RemoveNodes(nodes, C[j])[C[i]].ent == nodes[C[i]].ent
    {
      assert C[i] == F[i + 1] && F[i + 1] != F[j + 1];
      RemoveNodesKeeps(nodes, C[j], C[i]);
    }
  }

  /** Unlinking `x` leaves every other node allocated, with its entity. */
  lemma RemoveNodesKeeps(nodes: map<Handle, Node>, x: Handle, y: Handle)
    requires x in nodes && nodes[x].next in nodes && nodes[x].prev in nodes && y in nodes && y != x
    ensures y in RemoveNodes(nodes, x) && RemoveNodes(nodes, x)[y].ent == nodes[y].ent
  {
  }

  /** Overwriting the entity of the j-th content node of [l] + C + [r], on values. */
  lemma SetInList(nodes: map<Handle, Node>, l: Handle, C: seq<Handle>, r: Handle, j: nat, e: Entity)
    requires Chain(nodes, [l] + C + [r]) && j < |C| && e.kind != ListSentinel
    ensures C[j] in nodes && forall i :: 0 <= i < |C| ==> C[i] in nodes
    ensures Chain(nodes[C[j] := nodes[C[j]].(ent := e)], [l] + C + [r])
    ensures EntitiesOf(C, nodes[C[j] := nodes[C[j]].(ent := e)]) == EntitiesOf(C, nodes)[j := e]
  {
    var F := [l] + C + [r];
    forall i | 0 <= i < |C| ensures C[i] in nodes && C[i] == F[i + 1] {
      assert C[i] == F[i + 1];
    }
    SetKeepsChain(nodes, F, j + 1, e);
    forall i | 0 <= i < |C| && i != j ensures C[i] != C[j] {
      assert F[i + 1] != F[j + 1];
    }
    SetEntities(C, nodes, j, e);
  }

  /** Overwriting the entity of the p-th node of a chain with a non-sentinel keeps the chain. */
  lemma SetKeepsChain(nodes: map<Handle, Node>, F: seq<Handle>, p: nat, e: Entity)
    requires Chain(nodes, F) && 0 < p < |F| - 1 && e.kind != ListSentinel
    ensures F[p] in nodes && Chain(nodes[F[p] := nodes[F[p]].(ent := e)], F)
  {
    var x := F[p];
    var m := nodes[x := nodes[x].(ent := e)];
    assert forall y :: y in m <==> y in nodes;
    assert forall y :: y in nodes ==> m[y].next == nodes[y].next && m[y].prev == nodes[y].prev;
    assert Allocated(m, F);
    assert Linked(m, F);
    assert F[0] != x && F[|F| - 1] != x;
    forall i | 0 < i < |F| - 1 ensures m[F[i]].ent.kind != ListSentinel {
      if F[i] != x {
        assert m[F[i]] == nodes[F[i]];
      }
    }
    assert Tagged(m, F);
  }

  /** Overwriting the entity of the j-th of distinct nodes `C` overwrites the j-th entity. */
  lemma SetEntities(C: seq<Handle>, nodes: map<Handle, Node>, j: nat, e: Entity)
    requires j < |C| && (forall i :: 0 <= i < |C| ==> C[i] in nodes)
    requires forall i :: 0 <= i < |C| && i != j ==> C[i] != C[j]
    ensures EntitiesOf(C, nodes[C[j] := nodes[C[j]].(ent := e)]) == EntitiesOf(C, nodes)[j := e]
  {
    var m := nodes[C[j] := nodes[C[j]].(ent := e)];
    var a := EntitiesOf(C, m);
    var b := EntitiesOf(C, nodes)[j := e];
    forall i | 0 <= i < |C| ensures a[i] == b[i] {
      if i != j {
        assert m[C[i]] == nodes[C[i]];
      }
    }
  }

  /** Stepping a walk over a chain: the prefix grows by one and the next node is not in it. */
  lemma PrefixStep(F: seq<Handle>, i: nat)
    requires Distinct(F) && 0 < i < |F| - 1
    ensures F[..i] == F[..i - 1] + [F[i - 1]]
    ensures F[i + 1] !in F[..i]
  {
    forall p | 0 <= p < i ensures F[..i][p] != F[i + 1] {
      assert F[..i][p] == F[p];
    }
  }

  /** Releasing every node of a chain leaves the arena empty. */
  lemma NothingLeft(m: map<Handle, Node>, N: map<Handle, Node>, F: seq<Handle>)
    requires Allocated(N, F) && forall y :: y in m <==> y in N && y !in F
    ensures m == map[]
  {
    assert forall y :: y !in m;
  }

  /** The layout prefix grows by one alien per step. */
  lemma LayoutStep(i: nat)
    requires i < HordeSize
    ensures HordeLayout()[..i + 1] == HordeLayout()[..i] + [AlienAt(i)]
  {
  }

  class EntityList {
    /** The arena: every allocated node of this list. */
    var nodes: map<Handle, Node>
    /** The allocator: handles below it have been issued. */
    var nextFree: Handle
    /** The left sentinel, the handle by which the source refers to the list. */
    const left: Handle
    /** The right sentinel. */
    ghost const right: Handle
    /** The content nodes, from the front (left) to the back (right). */
    ghost var Content: seq<Handle>

    ghost function Full(): seq<Handle>
      reads this
    {
      [left] + Content + [right]
    }

    ghost predicate Valid()
      reads this
    {
      && Chain(nodes, Full())
      && (forall h :: h in nodes ==> 0 <= h < nextFree)
    }

    /** The content nodes are allocated and are not sentinels. */
    lemma ContentNodes()
      requires Valid()
      ensures forall i :: 0 <= i < |Content| ==> Content[i] in nodes && Content[i] == Full()[i + 1]
      ensures forall i :: 0 <= i < |Content| ==> nodes[Content[i]].ent.kind != ListSentinel
      ensures left in nodes && right in nodes && left != right
      ensures left !in Content && right !in Content
    {
      var F := Full();
      forall i | 0 <= i < |Content|
        ensures Content[i] in nodes && Content[i] == F[i + 1] && nodes[Content[i]].ent.kind != ListSentinel
      {
        assert F[i + 1] == Content[i];
      }
      assert F[0] == left && F[|F| - 1] == right;
      forall i | 0 <= i < |Content| ensures Content[i] != left && Content[i] != right {
        assert F[i + 1] == Content[i];
      }
    }

    /** The content nodes are pairwise distinct and none is the left sentinel. */
    lemma ContentDistinct()
      requires Valid()
      ensures Distinct(Content) && left !in Content
    {
      var F := Full();
      forall i, j | 0 <= i < j < |Content| ensures Content[i] != Content[j] {
        assert F[i + 1] == Content[i] && F[j + 1] == Content[j];
      }
      forall i | 0 <= i < |Content| ensures Content[i] != left {
        assert F[i + 1] == Content[i] && F[0] == left;
      }
    }

    /** The node at position p of Full(): it is allocated, its links point to its neighbours
        in Full(), it is a sentinel exactly at the two ends, and in between it holds the
        matching entry of Items(). */
    lemma At(p: nat)
      requires Valid() && p < |Full()|
      ensures Full()[p] in nodes
      ensures p + 1 < |Full()| ==> nodes[Full()[p]].next == Full()[p + 1]
      ensures 0 < p ==> nodes[Full()[p]].prev == Full()[p - 1]
      ensures nodes[Full()[p]].ent.kind == ListSentinel <==> p == 0 || p == |Full()| - 1
      ensures p == 0 || p == |Full()| - 1 ==> nodes[Full()[p]].ent == SentinelEntity
      ensures 0 < p < |Full()| - 1 ==> Full()[p] == Content[p - 1] && nodes[Full()[p]].ent == Items()[p - 1]
    {
      if 0 < p < |Full()| - 1 {
        assert Full()[p] == Content[p - 1];
      }
    }

    /** The entities of the content nodes, front to back. */
    ghost function Items(): seq<Entity>
      reads this
      requires Valid()
    {
      ContentNodes();
      EntitiesOf(Content, nodes)
    }

    /** createListEntities: an empty list of two linked sentinels. */
    constructor ()
      ensures Valid() && Content == [] && Items() == []
      ensures nodes[left].next == right && nodes[right].prev == left
      ensures nodes[left].ent.kind == ListSentinel && nodes[right].ent.kind == ListSentinel
    {
      left := 0;
      right := 1;
      nodes := map[0 := Node(SentinelEntity, 1, NoEntity), 1 := Node(SentinelEntity, NoEntity, 0)];
      nextFree := 2;
      Content := [];
      new;
      assert Full() == [0, 1];
    }

    /** Links a fresh node holding `e` right after `at`, the k-th node of Full(), as the new
        k-th content node: the four pointer writes of generateProjectile and createHorde. */
    method InsertAfter(at: Handle, ghost k: nat, e: Entity) returns (h: Handle)
      requires Valid() && k <= |Content| && at == Full()[k] && e.kind != ListSentinel
      modifies this
      ensures Valid()
      ensures h !in old(nodes) && h in nodes && nodes[h].ent == e
      ensures Content == old(Content)[..k] + [h] + old(Content)[k..]
      ensures Items() == old(Items())[..k] + [e] + old(Items())[k..]
      ensures forall x :: x in old(nodes) ==> x in nodes && nodes[x].ent == old(nodes[x].ent)
    {
      h := nextFree;
      assert h !in nodes;
      InsertIntoList(nodes, left, Content, right, k, h, e);
      ghost var m := InsertNodes(nodes, at, h, e);
      nextFree := nextFree + 1;
      var after := nodes[at].next;
      nodes := nodes[h := Node(e, after, at)];
      nodes := nodes[after := nodes[after].(prev := h)];
      nodes := nodes[at := nodes[at].(next := h)];
      Content := Content[..k] + [h] + Content[k..];
      assert nodes == m;
    }

    /** killEnemy / killProjectile (and killBullet, killPowerup): unlinks the content node `x`,
        the j-th one, and releases it. */
    method Kill(x: Handle, ghost j: nat)
      requires Valid() && j < |Content| && Content[j] == x
      modifies this
      ensures Valid()
      ensures Content == old(Content)[..j] + old(Content)[j + 1..]
      ensures Items() == old(Items())[..j] + old(Items())[j + 1..]
      ensures forall y :: y in nodes <==> y in old(nodes) && y != x
      ensures forall y :: y in nodes ==> nodes[y].ent == old(nodes[y].ent)
      ensures nextFree == old(nextFree)
    {
      RemoveFromList(nodes, left, Content, right, j);
      ghost var m := RemoveNodes(nodes, x);
      var nx := nodes[x].next;
      var pv := nodes[x].prev;
      nodes := nodes[nx := nodes[nx].(prev := pv)];
      nodes := nodes[pv := nodes[pv].(next := nx)];
      nodes := nodes - {x};
      Content := Content[..j] + Content[j + 1..];
      assert nodes == m;
    }

    /** Overwrites the entity of the content node `x`, the j-th one (the in-place field writes
        `list->next->type = ...` and `current->bounds.x += ...`). */
    method SetEntity(x: Handle, ghost j: nat, e: Entity)
      requires Valid() && j < |Content| && Content[j] == x && e.kind != ListSentinel
      modifies this
      ensures Valid() && Content == old(Content) && nextFree == old(nextFree)
      ensures Items() == old(Items())[j := e]
      ensures forall y :: y in nodes <==> y in old(nodes)
      ensures forall y :: y in nodes ==> nodes[y].next == old(nodes[y].next) && nodes[y].prev == old(nodes[y].prev)
    {
      SetInList(nodes, left, Content, right, j, e);
      nodes := nodes[x := nodes[x].(ent := e)];
    }

    /** Replacing the front of a sequence. */
    static lemma FrontUpdate<T>(s: seq<T>, v: T)
      requires |s| > 0
      ensures s[0 := v] == [v] + s[1..]
    {
      assert forall i :: 0 <= i < |s| ==> s[0 := v][i] == ([v] + s[1..])[i];
    }

    /** generateProjectile: a new front node with the given box and direction. Its kind is still
        to be set by the caller (the source leaves it uninitialised; here it reads Bullet). */
    method GenerateProjectile(height: real, width: real, x: real, y: real, up: bool)
      requires Valid()
      modifies this
      ensures Valid()
      ensures |Content| == |old(Content)| + 1 && Content[1..] == old(Content) && Content[0] !in old(nodes)
      ensures Items() == [Entity(Rectangle(x, y, width, height), Bullet, Type1, up)] + old(Items())
    {
      ghost var C := Content;
      ghost var items := Items();
      assert Full()[0] == left;
      var p := InsertAfter(left, 0, Entity(Rectangle(x, y, width, height), Bullet, Type1, up));
      assert C[..0] + [p] + C[0..] == [p] + C;
      assert items[..0] + [Entity(Rectangle(x, y, width, height), Bullet, Type1, up)] + items[0..]
          == [Entity(Rectangle(x, y, width, height), Bullet, Type1, up)] + items;
    }

    /** Sets the kind of the front node, the second step of generateBullet / generatePowerup. */
    method RetagFront(kind: EntityType)
      requires Valid() && |Content| > 0 && kind != ListSentinel
      modifies this
      ensures Valid() && Content == old(Content)
      ensures Items() == [old(Items())[0].(kind := kind)] + old(Items())[1..]
    {
      ghost var items := Items();
      ContentNodes();
      assert Full()[1] == Content[0];
      var front := nodes[left].next;
      SetEntity(front, 0, nodes[front].ent.(kind := kind));
      FrontUpdate(items, items[0].(kind := kind));
    }

    /** generateBullet: a 4 x 32 Bullet centred on `x` becomes the front node. */
    method GenerateBullet(x: real, y: real, up: bool)
      requires Valid()
      modifies this
      ensures Valid()
      ensures |Content| == |old(Content)| + 1 && Content[1..] == old(Content) && Content[0] !in old(nodes)
      ensures Items() == [BulletEntity(x, y, up)] + old(Items())
    {
      var height := 32.0;
      var width := 4.0;
      GenerateProjectile(height, width, x - width / 2.0, y, up);
      RetagFront(Bullet);
    }

    /** generatePowerup: a falling 25 x 25 powerup centred on `x` becomes the front node; `draw` is
        the rand() it consumes, whose value mod 100 decides between FastMove and FastShot. */
    method GeneratePowerup(x: real, y: real, draw: nat)
      requires Valid()
      modifies this
      ensures Valid()
      ensures |Content| == |old(Content)| + 1 && Content[1..] == old(Content) && Content[0] !in old(nodes)
      ensures Items() == [PowerupEntity(x, y, draw)] + old(Items())
    {
      ghost var items := Items();
      var width := 25.0;
      var dropCheck := draw % 100;
      GenerateProjectile(width, width, x - width / 2.0, y, false);
      ghost var e := Entity(Rectangle(x - width / 2.0, y, width, width), Bullet, Type1, false);
      assert Items() == [e] + items;
      var kind := if dropCheck < 50 then FastMove else FastShot;
      RetagFront(kind);
      assert kind == PowerupKind(draw);
      assert e.(kind := kind) == PowerupEntity(x, y, draw);
      assert ([e] + items)[1..] == items;
    }

    /** freeEntities: releases every node from the left sentinel through the right sentinel,
        each exactly once, in list order; `freed` records the releases. */
    method FreeEntities() returns (ghost freed: seq<Handle>)
      requires Valid()
      modifies this
      ensures freed == old(Full()) && nodes == map[]
    {
      ghost var F := Full();
      ghost var N := nodes;
      var current := left;
      var next := nodes[current].next;
      ghost var i: nat := 0;
      freed := [];
      while nodes[next].ent.kind != ListSentinel
        invariant i + 1 < |F| && current == F[i] && next == F[i + 1]
        invariant freed == F[..i]
        invariant forall y :: y in nodes <==> y in N && y !in freed
        invariant forall y :: y in nodes ==> nodes[y] == N[y]
        decreases |F| - i
      {
        nodes := nodes - {current};
        freed := freed + [current];
        current := next;
        next := nodes[current].next;
        i := i + 1;
        PrefixStep(F, i);
      }
      assert i + 1 == |F| - 1 by {
        assert N[next].ent.kind == ListSentinel;
        assert forall p :: 0 < p < |F| - 1 ==> N[F[p]].ent.kind != ListSentinel;
      }
      nodes := nodes - {current};
      freed := freed + [current];
      nodes := nodes - {next};
      freed := freed + [next];
      assert F == F[..i] + [current] + [next];
      assert forall y :: y in nodes <==> y in N && y !in F;
      NothingLeft(nodes, N, F);
    }
  }

  /** createHorde: a new list of the 55 aliens of HordeLayout, linked in index order. `lastAlive`
      is the value the source assigns to its by-value parameter (the last alien). */
  method CreateHorde() returns (horde: EntityList, lastAlive: Handle)
    ensures fresh(horde) && horde.Valid()
    ensures horde.Items() == HordeLayout()
    ensures |horde.Content| == HordeSize && lastAlive == horde.Content[HordeSize - 1]
  {
    horde := new EntityList();
    var current := horde.left;
    var i := 0;
    while i < HordeSize
      invariant 0 <= i <= HordeSize && horde.Valid() && |horde.Content| == i
      invariant current == horde.Full()[i]
      invariant horde.Items() == HordeLayout()[..i]
    {
      var temp := AlienAt(i);
      ghost var items := horde.Items();
      current := horde.InsertAfter(current, i, temp);
      assert items[..i] + [temp] + items[i..] == items + [temp];
      LayoutStep(i);
      assert horde.Full()[i + 1] == horde.Content[i] == current;
      i := i + 1;
    }
    lastAlive := current;
    assert HordeLayout()[..HordeSize] == HordeLayout();
  }
}
