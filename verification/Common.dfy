/** Shared vocabulary: an option type and the ascending listing of a finite set
    of numbers, which is what every "order by id" in the source computes. */
module Common {

  datatype Option<+T> = None | Some(value: T)

  ghost predicate StrictlyAscending(s: seq<nat>) {
    forall i, j :: 0 <= i < j < |s| ==> s[i] < s[j]
  }

  ghost predicate IsMaximum(s: set<nat>, m: nat) {
    m in s && forall x :: x in s ==> x <= m
  }

  lemma {:induction false} HasMaximum(s: set<nat>) returns (m: nat)
    requires s != {}
    ensures IsMaximum(s, m)
  {
    var y :| y in s;
    m := y;
    if s != {y} {
      var rest := HasMaximum(s - {y});
      m := if y < rest then rest else y;
    }
    assert forall x :: x in s ==> x == y || x in s - {y};
  }

  lemma MaximumExists(s: set<nat>)
    requires s != {}
    ensures exists m :: IsMaximum(s, m)
  {
    var m := HasMaximum(s);
  }

  ghost function Maximum(s: set<nat>): (m: nat)
    requires s != {}
    ensures m in s && forall x :: x in s ==> x <= m
  {
    MaximumExists(s);
    var m :| IsMaximum(s, m);
    m
  }

  /** The elements of s in ascending order. */
  ghost function Ascending(s: set<nat>): seq<nat> {
    if s == {} then [] else
      var m := Maximum(s);
      Ascending(s - {m}) + [m]
  }

  lemma {:induction false} AscendingContents(s: set<nat>)
    ensures forall x {:trigger x in s} {:trigger x in Ascending(s)} :: x in Ascending(s) <==> x in s
    ensures forall k :: 0 <= k < |Ascending(s)| ==> Ascending(s)[k] in s
    ensures StrictlyAscending(Ascending(s))
  {
    if s != {} {
      var m := Maximum(s);
      AscendingContents(s - {m});
      var front := Ascending(s - {m});
      assert forall k :: 0 <= k < |front| ==> front[k] in s - {m};
    }
  }

  lemma LastIsMaximum(r: seq<nat>, s: set<nat>)
    requires StrictlyAscending(r) && s != {}
    requires forall x :: x in r <==> x in s
    ensures r != [] && r[|r| - 1] == Maximum(s)
  {
    assert Maximum(s) in r;
    var k :| 0 <= k < |r| && r[k] == Maximum(s);
    assert r[|r| - 1] in s;
    assert k == |r| - 1;
  }

  lemma FrontHasTheRest(r: seq<nat>, s: set<nat>)
    requires StrictlyAscending(r) && r != []
    requires forall x :: x in r <==> x in s
    ensures StrictlyAscending(r[..|r| - 1])
    ensures forall x {:trigger x in s} :: x in r[..|r| - 1] <==> x in s && x != r[|r| - 1]
  {
    var last := |r| - 1;
    assert r == r[..last] + [r[last]];
  }

  /** A strictly ascending sequence is the only one with its elements. */
  lemma {:induction false} AscendingIsUnique(r: seq<nat>, s: set<nat>)
    requires StrictlyAscending(r)
    requires forall x :: x in r <==> x in s
    ensures r == Ascending(s)
    decreases |r|, 1
  {
    if r == [] {
      assert s == {};
    } else {
      assert r[0] in s;
      LastIsMaximum(r, s);
      FrontHasTheRest(r, s);
      AscendingFrontIsUnique(r[..|r| - 1], s, Maximum(s));
      assert r == r[..|r| - 1] + [Maximum(s)];
    }
  }

  lemma {:induction false} AscendingFrontIsUnique(front: seq<nat>, s: set<nat>, m: nat)
    requires s != {} && m == Maximum(s) && StrictlyAscending(front)
    requires forall x {:trigger x in s} :: x in front <==> x in s && x != m
    ensures Ascending(s) == front + [m]
    decreases |front| + 1, 0
  {
    forall x ensures x in front <==> x in s - {m} {
      assert x in s - {m} <==> x in s && x != m;
    }
    AscendingIsUnique(front, s - {m});
  }

  /** The position of the first c in s. */
  function FirstIndex(s: string, c: char): (r: Option<nat>)
    ensures r.Some? ==> r.value < |s| && s[r.value] == c && forall k :: 0 <= k < r.value ==> s[k] != c
    ensures r.None? ==> forall k :: 0 <= k < |s| ==> s[k] != c
  {
    if s == [] then None
    else if s[0] == c then Some(0)
    else
      var rest := FirstIndex(s[1..], c);
      if rest.None? then None else Some(rest.value + 1)
  }
}
