/** `subclasses(cls)` of `put_cat_to_ch/utils.py`: every class that inherits
    from `cls`, directly or through other classes.

    A class hierarchy is the `__subclasses__()` list of each class.  Classes
    are numbered in the order they are created; Python creates a class after
    its bases, so every direct subclass has a larger number than its base. */
module ClassUtils {

  /** `h[c]` is `c.__subclasses__()`. */
  type Hierarchy = seq<seq<nat>>

  predicate WellFormed(h: Hierarchy) {
    forall c :: 0 <= c < |h| ==> forall k :: 0 <= k < |h[c]| ==> c < h[c][k] < |h|
  }

  /** `subclasses(cls)`: the direct subclasses together with the subclasses
      of each of them. */
  function Subclasses(h: Hierarchy, c: nat): set<nat>
    requires WellFormed(h) && c < |h|
    decreases |h| - c, |h[c]| + 1
  {
    (set k | 0 <= k < |h[c]| :: h[c][k]) + SubclassesOfAll(h, c, h[c])
  }

  /** The union of `subclasses(d)` over the classes `ds`, each a subclass of `c`. */
  function SubclassesOfAll(h: Hierarchy, c: nat, ds: seq<nat>): set<nat>
    requires WellFormed(h) && c < |h|
    requires forall k :: 0 <= k < |ds| ==> c < ds[k] < |h|
    decreases |h| - c, |ds|
  {
    if ds == [] then {} else Subclasses(h, ds[0]) + SubclassesOfAll(h, c, ds[1..])
  }

  /** An inheritance chain: each class is a direct subclass of the one before. */
  ghost predicate Chain(h: Hierarchy, p: seq<nat>) {
    && (forall i :: 0 <= i < |p| ==> p[i] < |h|)
    && (forall i :: 0 < i < |p| ==> p[i] in h[p[i - 1]])
  }

  /** `d` inherits from `c`: a chain of at least one step leads from `c` to `d`. */
  ghost predicate Descends(h: Hierarchy, c: nat, d: nat) {
    exists p :: Chain(h, p) && |p| >= 2 && p[0] == c && p[|p| - 1] == d
  }

  lemma SubclassesOfAllMembers(h: Hierarchy, c: nat, ds: seq<nat>, x: nat)
    requires WellFormed(h) && c < |h|
    requires forall k :: 0 <= k < |ds| ==> c < ds[k] < |h|
    ensures x in SubclassesOfAll(h, c, ds) <==> exists k :: 0 <= k < |ds| && x in Subclasses(h, ds[k])
    decreases |ds|
  {
    if ds != [] {
      SubclassesOfAllMembers(h, c, ds[1..], x);
      if x in SubclassesOfAll(h, c, ds[1..]) {
        var k :| 0 <= k < |ds[1..]| && x in Subclasses(h, ds[1..][k]);
        assert x in Subclasses(h, ds[k + 1]);
      }
      if exists k :: 0 <= k < |ds| && x in Subclasses(h, ds[k]) {
        var k :| 0 <= k < |ds| && x in Subclasses(h, ds[k]);
        if k > 0 {
          assert x in Subclasses(h, ds[1..][k - 1]);
        }
      }
    }
  }

  /** Membership, one step at a time: `x` is a direct subclass of `c` or a
      subclass of one of them. */
  lemma SubclassesStep(h: Hierarchy, c: nat, x: nat)
    requires WellFormed(h) && c < |h|
    ensures x in Subclasses(h, c) <==> x in h[c] || exists d :: d in h[c] && x in Subclasses(h, d)
  {
    SubclassesOfAllMembers(h, c, h[c], x);
    if exists d :: d in h[c] && x in Subclasses(h, d) {
      var d :| d in h[c] && x in Subclasses(h, d);
      var k :| 0 <= k < |h[c]| && h[c][k] == d;
    }
  }

  /** Every member of `subclasses(c)` descends from `c`. */
  lemma {:induction false} SubclassesDescend(h: Hierarchy, c: nat, x: nat)
    requires WellFormed(h) && c < |h|
    requires x in Subclasses(h, c)
    ensures Descends(h, c, x)
    decreases |h| - c
  {
    SubclassesStep(h, c, x);
    if x in h[c] {
      assert Chain(h, [c, x]);
    } else {
      var d :| d in h[c] && x in Subclasses(h, d);
      SubclassesDescend(h, d, x);
      var p :| Chain(h, p) && |p| >= 2 && p[0] == d && p[|p| - 1] == x;
      assert Chain(h, [c] + p);
      assert ([c] + p)[|[c] + p| - 1] == x;
    }
  }

  /** Every class reached by a chain from `c` is in `subclasses(c)`. */
  lemma {:induction false} ChainInSubclasses(h: Hierarchy, p: seq<nat>)
    requires WellFormed(h) && Chain(h, p) && |p| >= 2
    ensures p[|p| - 1] in Subclasses(h, p[0])
    decreases |p|
  {
    SubclassesStep(h, p[0], p[|p| - 1]);
    if |p| > 2 {
      assert Chain(h, p[1..]);
      ChainInSubclasses(h, p[1..]);
      assert p[1] in h[p[0]];
    }
  }

  /** `subclasses(c)` is exactly the set of classes that descend from `c`. */
  lemma SubclassesAreDescendants(h: Hierarchy, c: nat, x: nat)
    requires WellFormed(h) && c < |h|
    ensures x in Subclasses(h, c) <==> Descends(h, c, x)
  {
    if x in Subclasses(h, c) {
      SubclassesDescend(h, c, x);
    }
    if Descends(h, c, x) {
      var p :| Chain(h, p) && |p| >= 2 && p[0] == c && p[|p| - 1] == x;
      ChainInSubclasses(h, p);
    }
  }

  /** Every direct subclass is in the result. */
  lemma DirectSubclasses(h: Hierarchy, c: nat)
    requires WellFormed(h) && c < |h|
    ensures forall k :: 0 <= k < |h[c]| ==> h[c][k] in Subclasses(h, c)
  {
  }

  /** A class inherits from those of its bases only, so it is never its own
      subclass; the members all lie in the hierarchy. */
  lemma {:induction false} SubclassesAfter(h: Hierarchy, c: nat)
    requires WellFormed(h) && c < |h|
    ensures forall x :: x in Subclasses(h, c) ==> c < x < |h|
    ensures c !in Subclasses(h, c)
    decreases |h| - c
  {
    forall x | x in Subclasses(h, c)
      ensures c < x < |h|
    {
      SubclassesStep(h, c, x);
      if x !in h[c] {
        var d :| d in h[c] && x in Subclasses(h, d);
        SubclassesAfter(h, d);
      }
    }
  }

  /** The result is closed: a subclass of a member is a member. */
  lemma SubclassesClosed(h: Hierarchy, c: nat, d: nat, e: nat)
    requires WellFormed(h) && c < |h|
    requires d in Subclasses(h, c) && d < |h| && e in h[d]
    ensures e in Subclasses(h, c)
  {
    SubclassesDescend(h, c, d);
    var p :| Chain(h, p) && |p| >= 2 && p[0] == c && p[|p| - 1] == d;
    assert Chain(h, p + [e]);
    ChainInSubclasses(h, p + [e]);
  }

  /** A diamond: `B` and `C` inherit from `A`, and `D` from both.  `D` is
      reached along two chains and is one member of the set. */
  lemma Diamond()
    ensures WellFormed([[1, 2], [3], [3], []])
    ensures Subclasses([[1, 2], [3], [3], []], 0) == {1, 2, 3}
  {
    var h: Hierarchy := [[1, 2], [3], [3], []];
    assert Subclasses(h, 3) == {};
    assert Subclasses(h, 2) == {3};
    assert Subclasses(h, 1) == {3};
  }
}
