/** The search for a TLS error in the graph of causes and contexts of an exception. */
module SslSearch {
  import opened Prelude

  /** An exception object: its links to other exceptions, and whether it is an `ssl.SSLError`.
      Exceptions are named by their index, as the search names them by identity; the links may
      form cycles. */
  datatype Exn = Exn(cause: Option<nat>, context: Option<nat>, isSsl: bool)

  ghost predicate Closed(graph: seq<Exn>) {
    forall i | 0 <= i < |graph| ::
      && (graph[i].cause.Some? ==> graph[i].cause.value < |graph|)
      && (graph[i].context.Some? ==> graph[i].context.value < |graph|)
  }

  predicate Linked(graph: seq<Exn>, a: nat, b: nat) {
    a < |graph| && (graph[a].cause == Some(b) || graph[a].context == Some(b))
  }

  ghost predicate IsPath(graph: seq<Exn>, path: seq<nat>) {
    path != [] && forall i | 0 <= i < |path| - 1 :: Linked(graph, path[i], path[i + 1])
  }

  ghost predicate Reachable(graph: seq<Exn>, a: nat, b: nat) {
    exists path :: IsPath(graph, path) && path[0] == a && path[|path| - 1] == b
  }

  lemma ReachableSelf(graph: seq<Exn>, a: nat)
    ensures Reachable(graph, a, a)
  {
    assert IsPath(graph, [a]);
  }

  lemma ReachableStep(graph: seq<Exn>, a: nat, b: nat, c: nat)
    requires Reachable(graph, a, b) && Linked(graph, b, c)
    ensures Reachable(graph, a, c)
  {
    var path :| IsPath(graph, path) && path[0] == a && path[|path| - 1] == b;
    assert IsPath(graph, path + [c]);
  }

  /** A set that is closed under the links holds everything reachable from its members. */
  lemma {:induction false} ClosedSetHoldsPath(graph: seq<Exn>, nodes: set<nat>, path: seq<nat>)
    requires IsPath(graph, path) && path[0] in nodes
    requires forall a, b | a in nodes && Linked(graph, a, b) :: b in nodes
    ensures path[|path| - 1] in nodes
  {
    if |path| == 1 {
    } else {
      assert Linked(graph, path[0], path[1]);
      ClosedSetHoldsPath(graph, nodes, path[1..]);
    }
  }

  /** `_find_ssl_error`: terminates on every graph, cycles included, and finds a TLS error exactly
      when one is reachable. */
  method FindSslError(graph: seq<Exn>, exc: nat) returns (found: Option<nat>)
    requires Closed(graph) && exc < |graph|
    ensures found.Some? ==> found.value < |graph| && graph[found.value].isSsl && Reachable(graph, exc, found.value)
    ensures found == None <==> forall n | 0 <= n < |graph| && Reachable(graph, exc, n) :: !graph[n].isSsl
  {
    var seen: set<nat> := {};
    var unvisited: seq<Option<nat>> := [Some(exc)];
    ghost var all := Upto(|graph|);
    ReachableSelf(graph, exc);
    while unvisited != []
      invariant seen <= all
      invariant forall n <- seen :: Reachable(graph, exc, n) && !graph[n].isSsl
      invariant forall k | 0 <= k < |unvisited| && unvisited[k].Some? ::
        unvisited[k].value < |graph| && Reachable(graph, exc, unvisited[k].value)
      invariant exc in seen || Some(exc) in unvisited
      invariant forall a, b | a in seen && Linked(graph, a, b) :: b in seen || Some(b) in unvisited
      decreases all - seen, |unvisited|
    {
      var current := unvisited[|unvisited| - 1];
      ghost var before := unvisited;
      unvisited := unvisited[..|unvisited| - 1];
      assert before == unvisited + [current];
      if current == None || current.value in seen {
        continue;
      }
      var n := current.value;
      seen := seen + {n};
      if graph[n].isSsl {
        return current;
      }
      unvisited := unvisited + [graph[n].cause, graph[n].context];
      forall b: nat | Linked(graph, n, b) ensures Reachable(graph, exc, b) && Some(b) in unvisited {
        ReachableStep(graph, exc, n, b);
        assert unvisited[|unvisited| - 2] == graph[n].cause && unvisited[|unvisited| - 1] == graph[n].context;
      }
      if graph[n].cause.Some? {
        assert Linked(graph, n, graph[n].cause.value);
      }
      if graph[n].context.Some? {
        assert Linked(graph, n, graph[n].context.value);
      }
    }
    forall n | 0 <= n < |graph| && Reachable(graph, exc, n) ensures !graph[n].isSsl {
      var path :| IsPath(graph, path) && path[0] == exc && path[|path| - 1] == n;
      ClosedSetHoldsPath(graph, seen, path);
    }
    return None;
  }
}
