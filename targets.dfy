/** The configured targets: a map from resolved socket address to the label the operator
    typed, fixed at startup and shared read-only (`HashMap<SocketAddr, String>` in
    src/main.rs, a dict in prometheus_ping.py). */
module Targets {

  datatype SocketAddr = SocketAddr(ip: seq<int>, port: nat)

  type Label = string

  /** `order` is an order in which iterating the target map visits its keys: each
      address exactly once. The hash maps fix no order, so the model takes it as given. */
  predicate IsIterationOrder(order: seq<SocketAddr>, targets: map<SocketAddr, Label>) {
    (forall i, j :: 0 <= i < j < |order| ==> order[i] != order[j]) &&
    (forall a :: a in order ==> a in targets) &&
    (forall a :: a in targets ==> a in order)
  }

  /** Every visited address is configured (an iteration order may repeat or miss some). */
  predicate Visits(order: seq<SocketAddr>, targets: map<SocketAddr, Label>) {
    forall i :: 0 <= i < |order| ==> order[i] in targets
  }

  /** All addresses have different labels. Two addresses can share a label when the
      same name is given twice on the command line and resolves differently. */
  predicate Injective(targets: map<SocketAddr, Label>) {
    forall a, b :: a in targets && b in targets && a != b ==> targets[a] != targets[b]
  }

  /** Whether address `a` is configured with label `l`. */
  predicate Carries(targets: map<SocketAddr, Label>, a: SocketAddr, l: Label) {
    a in targets && targets[a] == l
  }

  /** How many of the visited addresses carry label `l`. */
  function Hits(order: seq<SocketAddr>, targets: map<SocketAddr, Label>, l: Label): (k: nat)
    ensures k <= |order|
  {
    if order == [] then 0
    else Hits(order[..|order| - 1], targets, l) + (if Carries(targets, order[|order| - 1], l) then 1 else 0)
  }

  /** Visiting one more address adds one hit to its label and none to any other. */
  lemma HitsAppend(order: seq<SocketAddr>, targets: map<SocketAddr, Label>, i: nat, l: Label)
    requires i < |order|
    ensures Hits(order[..i + 1], targets, l)
         == Hits(order[..i], targets, l) + (if Carries(targets, order[i], l) then 1 else 0)
  {
    assert order[..i + 1][..i] == order[..i];
  }

  /** With one address `a` per label, the label of `a` is hit once per visit of `a`. */
  lemma {:induction false} HitsSingle(order: seq<SocketAddr>, targets: map<SocketAddr, Label>, a: SocketAddr)
    requires Injective(targets) && a in targets
    requires forall i, j :: 0 <= i < j < |order| ==> order[i] != order[j]
    ensures Hits(order, targets, targets[a]) == if a in order then 1 else 0
  {
    if order != [] {
      var n := |order|;
      var init := order[..n - 1];
      HitsSingle(init, targets, a);
      if order[n - 1] == a {
        assert a !in init;
      } else {
        assert a in order <==> a in init;
      }
    }
  }

  /** Every configured label is hit at least once by a full iteration. */
  lemma {:induction false} HitsCovers(order: seq<SocketAddr>, targets: map<SocketAddr, Label>, a: SocketAddr)
    requires a in order && a in targets
    ensures Hits(order, targets, targets[a]) >= 1
  {
    var n := |order|;
    if order[n - 1] != a {
      HitsCovers(order[..n - 1], targets, a);
    }
  }

  /** A full iteration over a map with distinct labels hits each label exactly once. */
  lemma HitsOnce(order: seq<SocketAddr>, targets: map<SocketAddr, Label>, l: Label)
    requires IsIterationOrder(order, targets) && Injective(targets)
    requires l in targets.Values
    ensures Hits(order, targets, l) == 1
  {
    var a :| a in targets && targets[a] == l;
    HitsSingle(order, targets, a);
  }
}
