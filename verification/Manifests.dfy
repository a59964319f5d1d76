/** Route manifests: the identity a lane publishes before the shared listener opens. */
module Manifests {
  import opened Sorting

  datatype Route = Route(httpMethod: string, path: string, routeId: string)

  /** What a lane registers. Routes are kept in their derived order; middleware order is meaningful. */
  datatype Manifest = Manifest(middleware: seq<string>, routes: seq<Route>)

  /** The derived order: method, then path, then route id. */
  predicate RouteLe(a: Route, b: Route) {
    if a.httpMethod != b.httpMethod then StringLe(a.httpMethod, b.httpMethod)
    else if a.path != b.path then StringLe(a.path, b.path)
    else StringLe(a.routeId, b.routeId)
  }

  function NewManifest(middleware: seq<string>, routes: seq<Route>): Manifest {
    Manifest(middleware, Sort(RouteLe, routes))
  }

  lemma RouteLeIsOneOrder(a: Route, b: Route)
    ensures RouteLe(a, b) || RouteLe(b, a)
    ensures RouteLe(a, b) && RouteLe(b, a) ==> a == b
  {
    StringLeTotal(a.httpMethod, b.httpMethod);
    StringLeTotal(a.path, b.path);
    StringLeTotal(a.routeId, b.routeId);
  }

  lemma RouteLeTransitive(a: Route, b: Route, c: Route)
    requires RouteLe(a, b) && RouteLe(b, c)
    ensures RouteLe(a, c)
  {
    StringLeTotal(a.httpMethod, b.httpMethod);
    StringLeTotal(a.path, b.path);
    if a.httpMethod != b.httpMethod && b.httpMethod != c.httpMethod {
      StringLeTransitive(a.httpMethod, b.httpMethod, c.httpMethod);
    } else if a.httpMethod == b.httpMethod == c.httpMethod {
      if a.path != b.path && b.path != c.path {
        StringLeTransitive(a.path, b.path, c.path);
      } else if a.path == b.path == c.path {
        StringLeTransitive(a.routeId, b.routeId, c.routeId);
      }
    }
  }

  /** Two replicas publish the same manifest exactly when they own the same routes, each as many
      times, and run the same middleware in the same order. */
  lemma ManifestsEqualIff(m: seq<string>, routes: seq<Route>, n: seq<string>, others: seq<Route>)
    ensures NewManifest(m, routes) == NewManifest(n, others) <==> m == n && multiset(routes) == multiset(others)
  {
    forall a, b ensures RouteLe(a, b) || RouteLe(b, a) { RouteLeIsOneOrder(a, b); }
    forall a, b | RouteLe(a, b) && RouteLe(b, a) ensures a == b { RouteLeIsOneOrder(a, b); }
    forall a, b, c | RouteLe(a, b) && RouteLe(b, c) ensures RouteLe(a, c) { RouteLeTransitive(a, b, c); }
    SortIgnoresOrder(RouteLe, routes, others);
  }
}
