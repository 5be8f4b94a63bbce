/**
 Role-based authorization: roles resolved by a depth-first search that shares one
 visited set over a possibly cyclic membership graph, then matched against the
 roles' permissions.
 */
module Rbac {

  datatype Permission = Permission(resource: string, action: string)

  type Graph = map<string, seq<string>>

  datatype Config = Config(rolePermissions: map<string, seq<Permission>>, userRoles: Graph, wildcard: string)

  datatype Pair = Pair(action: string, resource: string)

  // --- Reachability ---------------------------------------------------------------

  function Memberships(g: Graph, name: string): seq<string> {
    if name in g then g[name] else []
  }

  predicate Edge(g: Graph, a: string, b: string) {
    b in Memberships(g, a)
  }

  predicate IsWalk(g: Graph, walk: seq<string>) {
    |walk| >= 1 && forall k | 0 <= k < |walk| - 1 :: Edge(g, walk[k], walk[k + 1])
  }

  predicate Joins(g: Graph, walk: seq<string>, a: string, b: string) {
    IsWalk(g, walk) && walk[0] == a && walk[|walk| - 1] == b
  }

  /** b is reached from a in zero or more membership steps. */
  ghost predicate Within(g: Graph, a: string, b: string) {
    exists walk :: Joins(g, walk, a, b)
  }

  /** b is reached from a in one or more membership steps. */
  ghost predicate Reaches(g: Graph, a: string, b: string) {
    exists walk :: Joins(g, walk, a, b) && |walk| > 1
  }

  lemma WithinSelf(g: Graph, a: string)
    ensures Within(g, a, a)
  {
    assert Joins(g, [a], a, a);
  }

  lemma WithinStep(g: Graph, a: string, b: string, c: string)
    requires Edge(g, a, b) && Within(g, b, c)
    ensures Within(g, a, c)
  {
    var walk :| Joins(g, walk, b, c);
    assert Joins(g, [a] + walk, a, c);
  }

  lemma ReachesIffLastStep(g: Graph, a: string, c: string)
    ensures Reaches(g, a, c) <==> exists b :: Within(g, a, b) && Edge(g, b, c)
  {
    if Reaches(g, a, c) {
      var walk :| Joins(g, walk, a, c) && |walk| > 1;
      var n := |walk| - 1;
      assert Joins(g, walk[..n], a, walk[n - 1]);
      assert Edge(g, walk[n - 1], walk[n]);
    }
    if b :| Within(g, a, b) && Edge(g, b, c) {
      var walk :| Joins(g, walk, a, b);
      assert Joins(g, walk + [c], a, c);
    }
  }

  /** Everything the search adds is closed under membership as far as it went. */
  predicate ClosedIn(g: Graph, inner: set<string>, outer: set<string>) {
    forall u | u in inner :: forall r | r in Memberships(g, u) :: r in outer
  }

  lemma {:induction false} ClosedHoldsWalks(g: Graph, names: set<string>, walk: seq<string>, k: nat)
    requires ClosedIn(g, names, names) && IsWalk(g, walk) && walk[0] in names && k < |walk|
    ensures walk[k] in names
  {
    if k > 0 {
      ClosedHoldsWalks(g, names, walk, k - 1);
      assert Edge(g, walk[k - 1], walk[k]);
    }
  }

  /** A closed set of names reached from its member a is exactly what a reaches. */
  lemma ClosedIsReach(g: Graph, a: string, names: set<string>, b: string)
    requires a in names && ClosedIn(g, names, names) && forall u | u in names :: Within(g, a, u)
    ensures Within(g, a, b) <==> b in names
  {
    if Within(g, a, b) {
      var walk :| Joins(g, walk, a, b);
      ClosedHoldsWalks(g, names, walk, |walk| - 1);
    }
  }

  // --- Role resolution --------------------------------------------------------------

  function Names(g: Graph): set<string> {
    g.Keys + set k, r | k in g && r in g[k] :: r
  }

  /** r is a direct role of one of the names. */
  predicate RoleOf(g: Graph, names: set<string>, r: string) {
    exists u | u in names :: Edge(g, u, r)
  }

  /** The visited set, shared by the whole search. */
  class Visited {
    var names: set<string>

    constructor ()
      ensures names == {}
    {
      names := {};
    }
  }

  /**
   What one call does to the visited set, whatever was visited before: it adds names
   reached from the subject, closed under membership, and returns their direct roles.
   */
  method ResolveRoles(g: Graph, subject: string, visited: Visited) returns (result: seq<string>)
    modifies visited
    ensures old(visited.names) <= visited.names && subject in visited.names
    ensures forall u | u in visited.names - old(visited.names) :: Within(g, subject, u)
    ensures ClosedIn(g, visited.names - old(visited.names), visited.names)
    ensures forall r :: r in result <==> RoleOf(g, visited.names - old(visited.names), r)
    decreases Names(g) + {subject} - visited.names
  {
    ghost var before := visited.names;
    if subject in visited.names {
      return [];
    }
    visited.names := visited.names + {subject};
    ghost var entered := visited.names;
    WithinSelf(g, subject);
    assert entered - before == {subject};
    if subject !in g {
      return [];
    }
    var memberships := g[subject];
    result := [];
    for i := 0 to |memberships|
      invariant entered <= visited.names
      invariant forall u | u in visited.names - entered :: Within(g, subject, u)
      invariant ClosedIn(g, visited.names - entered, visited.names)
      invariant forall k | 0 <= k < i :: memberships[k] in visited.names
      invariant forall r :: r in result <==> r in memberships[..i] || RoleOf(g, visited.names - entered, r)
    {
      var role := memberships[i];
      ghost var mid := visited.names;
      ghost var soFar := result;
      assert subject in g && role in g[subject];
      assert subject in Names(g) + {subject} - before && subject !in Names(g) + {role} - mid;
      var inherited := ResolveRoles(g, role, visited);
      result := result + [role] + inherited;
      StepKept(g, subject, entered, mid, visited.names, role, memberships[..i], soFar, inherited);
      assert memberships[..i + 1] == memberships[..i] + [role];
    }
    assert memberships[..|memberships|] == memberships;
    assert visited.names - before == (visited.names - entered) + {subject};
  }

  lemma StepKept(g: Graph, subject: string, entered: set<string>, mid: set<string>, after: set<string>, role: string,
                 done: seq<string>, soFar: seq<string>, inherited: seq<string>)
    requires entered <= mid <= after && role in after && Edge(g, subject, role)
    requires forall u | u in mid - entered :: Within(g, subject, u)
    requires forall u | u in after - mid :: Within(g, role, u)
    requires ClosedIn(g, mid - entered, mid) && ClosedIn(g, after - mid, after)
    requires forall r :: r in soFar <==> r in done || RoleOf(g, mid - entered, r)
    requires forall r :: r in inherited <==> RoleOf(g, after - mid, r)
    ensures forall u | u in after - entered :: Within(g, subject, u)
    ensures ClosedIn(g, after - entered, after)
    ensures forall r :: r in soFar + [role] + inherited <==> r in done + [role] || RoleOf(g, after - entered, r)
  {
    forall u | u in after - entered ensures Within(g, subject, u) {
      if u !in mid {
        WithinStep(g, subject, role, u);
      }
    }
    forall r ensures RoleOf(g, after - entered, r) <==> RoleOf(g, mid - entered, r) || RoleOf(g, after - mid, r) {
      assert after - entered == (mid - entered) + (after - mid);
    }
  }

  /** From an empty visited set the search returns exactly the names reachable in one or more steps. */
  method RolesOf(g: Graph, subject: string) returns (roles: seq<string>)
    ensures forall r :: r in roles <==> Reaches(g, subject, r)
  {
    var visited := new Visited();
    roles := ResolveRoles(g, subject, visited);
    var names := visited.names;
    assert names - {} == names;
    forall r ensures r in roles <==> Reaches(g, subject, r) {
      ReachesIffLastStep(g, subject, r);
      forall b ensures Within(g, subject, b) <==> b in names {
        ClosedIsReach(g, subject, names, b);
      }
    }
  }

  // --- Permissions ------------------------------------------------------------------

  predicate EndsWith(s: string, suffix: string) {
    |suffix| <= |s| && s[|s| - |suffix|..] == suffix
  }

  /** The wildcard matcher: equality, then prefix patterns, then suffix patterns. */
  predicate MatchesPattern(pattern: string, value: string, wildcard: string) {
    if pattern == wildcard || pattern == value then true
    else if EndsWith(pattern, wildcard) then pattern[..|pattern| - |wildcard|] <= value
    else if wildcard <= pattern then EndsWith(value, pattern[|wildcard|..])
    else false
  }

  /** The trailing wildcard decides before the leading one, and the equality tests add nothing to either. */
  lemma MatchesIff(pattern: string, value: string, wildcard: string)
    ensures MatchesPattern(pattern, value, wildcard) <==>
      if EndsWith(pattern, wildcard) then pattern[..|pattern| - |wildcard|] <= value
      else if wildcard <= pattern then exists front :: value == front + pattern[|wildcard|..]
      else pattern == value
  {
    if !EndsWith(pattern, wildcard) && wildcard <= pattern {
      var back := pattern[|wildcard|..];
      if EndsWith(value, back) {
        assert value == value[..|value| - |back|] + back;
      }
      if pattern == value {
        assert value == wildcard + back;
      }
      forall front | value == front + back ensures EndsWith(value, back) {
      }
    }
  }

  predicate Allows(p: Permission, action: string, resource: string, wildcard: string) {
    MatchesPattern(p.resource, resource, wildcard) && MatchesPattern(p.action, action, wildcard)
  }

  predicate Grants(config: Config, role: string, action: string, resource: string) {
    role in config.rolePermissions
    && exists p | p in config.rolePermissions[role] :: Allows(p, action, resource, config.wildcard)
  }

  /** Some role reachable from the subject carries a matching permission. */
  ghost predicate Authorized(config: Config, subject: string, action: string, resource: string) {
    exists role :: Reaches(config.userRoles, subject, role) && Grants(config, role, action, resource)
  }

  method Evaluate(config: Config, subject: string, action: string, resource: string) returns (allowed: bool)
    ensures allowed <==> Authorized(config, subject, action, resource)
  {
    var roles := RolesOf(config.userRoles, subject);
    for i := 0 to |roles|
      invariant forall k | 0 <= k < i :: !Grants(config, roles[k], action, resource)
    {
      if roles[i] !in config.rolePermissions {
        continue;
      }
      var permissions := config.rolePermissions[roles[i]];
      for j := 0 to |permissions|
        invariant forall k | 0 <= k < j :: !Allows(permissions[k], action, resource, config.wildcard)
      {
        var p := permissions[j];
        if MatchesPattern(p.resource, resource, config.wildcard) && MatchesPattern(p.action, action, config.wildcard) {
          assert Allows(p, action, resource, config.wildcard);
          assert Grants(config, roles[i], action, resource);
          return true;
        }
      }
    }
    return false;
  }

  /** A text with neither a wildcard before nor behind stands for itself alone. */
  ghost predicate Plain(pattern: string, wildcard: string) {
    wildcard != "" && !(wildcard <= pattern) && !EndsWith(pattern, wildcard)
  }

  /** A permission without wildcards allows its own action on its own resource, and nothing else. */
  lemma PlainPermission(p: Permission, action: string, resource: string, wildcard: string)
    requires Plain(p.action, wildcard) && Plain(p.resource, wildcard)
    ensures Allows(p, action, resource, wildcard) <==> p.action == action && p.resource == resource
  {
    MatchesIff(p.resource, resource, wildcard);
    MatchesIff(p.action, action, wildcard);
  }

  lemma OneStepReach(g: Graph, subject: string, role: string)
    requires g == map[subject := [role]] && subject != role
    ensures forall r :: Reaches(g, subject, r) <==> r == role
  {
    assert Joins(g, [subject, role], subject, role);
    forall r | Reaches(g, subject, r) ensures r == role {
      var walk :| Joins(g, walk, subject, r) && |walk| > 1;
      var k := |walk| - 2;
      assert Edge(g, walk[k], walk[k + 1]);
    }
  }

  /** One subject with one role and its one plain permission: exactly that action on that resource is authorized. */
  lemma OneGrant(subject: string, role: string, p: Permission, wildcard: string, action: string, resource: string)
    requires subject != role && Plain(p.action, wildcard) && Plain(p.resource, wildcard)
    ensures Authorized(Config(map[role := [p]], map[subject := [role]], wildcard), subject, action, resource)
            <==> p.action == action && p.resource == resource
  {
    hide Reaches, Allows, Plain;
    var config := Config(map[role := [p]], map[subject := [role]], wildcard);
    OneStepReach(config.userRoles, subject, role);
    PlainPermission(p, action, resource, wildcard);
    assert Grants(config, role, action, resource) <==> Allows(p, action, resource, wildcard) by {
      assert p in config.rolePermissions[role];
    }
    assert Authorized(config, subject, action, resource) <==> Grants(config, role, action, resource);
  }

  /** Larger maps: every role keeps its permissions, every name its memberships. */
  ghost predicate Extends(small: Config, large: Config) {
    && small.wildcard == large.wildcard
    && (forall role | role in small.rolePermissions ::
          role in large.rolePermissions
          && forall p | p in small.rolePermissions[role] :: p in large.rolePermissions[role])
    && (forall a, b | Edge(small.userRoles, a, b) :: Edge(large.userRoles, a, b))
  }

  /** There is no deny: adding permissions or memberships never takes a grant away. */
  lemma GrantsAreMonotone(small: Config, large: Config, subject: string, action: string, resource: string)
    requires Extends(small, large) && Authorized(small, subject, action, resource)
    ensures Authorized(large, subject, action, resource)
  {
    var role :| Reaches(small.userRoles, subject, role) && Grants(small, role, action, resource);
    var walk :| Joins(small.userRoles, walk, subject, role) && |walk| > 1;
    assert Joins(large.userRoles, walk, subject, role);
    assert Reaches(large.userRoles, subject, role);
    assert Grants(large, role, action, resource);
  }

  // --- Filters ----------------------------------------------------------------------

  ghost predicate AnyAuthorized(config: Config, subjects: seq<string>, action: string, resource: string) {
    exists s | s in subjects :: Authorized(config, s, action, resource)
  }

  /** The pairs some subject is individually authorized for, in order. */
  ghost function AuthorizedPairs(config: Config, subjects: seq<string>, pairs: seq<Pair>): seq<Pair> {
    if pairs == [] then []
    else
      var n := |pairs| - 1;
      AuthorizedPairs(config, subjects, pairs[..n])
      + if AnyAuthorized(config, subjects, pairs[n].action, pairs[n].resource) then [pairs[n]] else []
  }

  /** The filter keeps a pair exactly if some subject may take its action on its resource, and keeps the order. */
  lemma {:induction false} FilteredIff(config: Config, subjects: seq<string>, a: seq<Pair>, b: seq<Pair>, pair: Pair)
    ensures pair in AuthorizedPairs(config, subjects, b) <==>
              pair in b && exists s | s in subjects :: Authorized(config, s, pair.action, pair.resource)
    ensures AuthorizedPairs(config, subjects, a + b)
         == AuthorizedPairs(config, subjects, a) + AuthorizedPairs(config, subjects, b)
    decreases |b|
  {
    hide Authorized;
    if b == [] {
      assert a + b == a;
    } else {
      var n := |b| - 1;
      FilteredIff(config, subjects, a, b[..n], pair);
      assert (a + b)[..|a + b| - 1] == a + b[..n];
      assert b == b[..n] + [b[n]];
    }
  }

  method AnySubject(config: Config, subjects: seq<string>, action: string, resource: string) returns (allowed: bool)
    ensures allowed <==> AnyAuthorized(config, subjects, action, resource)
  {
    for j := 0 to |subjects|
      invariant forall k | 0 <= k < j :: !Authorized(config, subjects[k], action, resource)
    {
      var verdict := Evaluate(config, subjects[j], action, resource);
      if verdict {
        return true;
      }
    }
    return false;
  }

  method FilterAuthorizedPairs(config: Config, subjects: seq<string>, pairs: seq<Pair>) returns (result: seq<Pair>)
    ensures result == AuthorizedPairs(config, subjects, pairs)
  {
    result := [];
    for i := 0 to |pairs|
      invariant result == AuthorizedPairs(config, subjects, pairs[..i])
    {
      var allowed := AnySubject(config, subjects, pairs[i].action, pairs[i].resource);
      if allowed {
        result := result + [pairs[i]];
      }
      assert pairs[..i + 1][..i] == pairs[..i];
    }
    assert pairs[..|pairs|] == pairs;
  }

  /** The model has no project axis: all the projects or none. */
  method ProjectsAuthorized(config: Config, subjects: seq<string>, action: string, resource: string,
                            projects: seq<string>) returns (result: seq<string>)
    ensures AnyAuthorized(config, subjects, action, resource) ==> result == projects
    ensures !AnyAuthorized(config, subjects, action, resource) ==> result == []
  {
    result := [];
    for i := 0 to |projects|
      invariant result == if AnyAuthorized(config, subjects, action, resource) then projects[..i] else []
    {
      var allowed := AnySubject(config, subjects, action, resource);
      if allowed {
        result := result + [projects[i]];
      }
    }
  }
}
