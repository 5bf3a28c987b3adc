/** The back end's web security (backend/src/main/java/com/blog/auth/config/SecurityConfig.java):
    the authorities granted for a token's realm roles, and the ordered request rules that decide
    which requests need a login or a role. */
module Security {
  import opened Wrappers

  // ---------------------------------------------------------------- granted authorities

  const RolePrefix: string := "ROLE_"

  /** The `realm_access` claim of a token: absent, or a map whose `roles` entry, when present,
      is a list of role names or null. */
  type RealmAccess = map<string, Option<seq<string>>>

  /** `getGrantedAuthorities`: each realm role `r`, in order, becomes the authority `ROLE_r`; no
      claim or no `roles` key grants nothing, and a null `roles` list is a NullPointerException. */
  function GrantedAuthorities(realmAccess: Option<RealmAccess>): (r: Result<seq<string>, string>)
    ensures (realmAccess.None? || "roles" !in realmAccess.value) ==> r == Ok([])
    ensures r.Err? <==> realmAccess.Some? && "roles" in realmAccess.value && realmAccess.value["roles"].None?
    ensures (r.Ok? && realmAccess.Some? && "roles" in realmAccess.value) ==>
      (|r.value| == |realmAccess.value["roles"].value|
       && forall i | 0 <= i < |r.value| :: r.value[i] == RolePrefix + realmAccess.value["roles"].value[i])
  {
    match realmAccess
    case None => Ok([])
    case Some(claim) =>
      if "roles" !in claim then Ok([])
      else match claim["roles"]
        case None => Err("NullPointerException")
        case Some(roles) => Ok(Prefixed(roles))
  }

  function Prefixed(roles: seq<string>): (r: seq<string>)
    ensures |r| == |roles| && forall i | 0 <= i < |r| :: r[i] == RolePrefix + roles[i]
  {
    seq(|roles|, i requires 0 <= i < |roles| => RolePrefix + roles[i])
  }

  /** The role names back from the authorities: the prefix dropped. */
  function RoleNames(authorities: seq<string>): (r: seq<string>)
    requires forall i | 0 <= i < |authorities| :: |authorities[i]| >= |RolePrefix|
    ensures |r| == |authorities|
  {
    seq(|authorities|, i requires 0 <= i < |authorities| => authorities[i][|RolePrefix|..])
  }

  /** The roles of the token are the authorities with their prefix removed: nothing is lost,
      reordered or invented. */
  lemma RoleNamesOfGranted(roles: seq<string>)
    ensures RoleNames(Prefixed(roles)) == roles
  {
    var a := Prefixed(roles);
    forall i | 0 <= i < |roles|
      ensures RoleNames(a)[i] == roles[i]
    {
      assert a[i] == RolePrefix + roles[i];
    }
  }

  // ---------------------------------------------------------------- request rules

  datatype Verb = GET | POST | PUT | PATCH | DELETE | OPTIONS | HEAD

  /** A path pattern: a fixed path, a prefix standing for that path and everything below it, or any
      path. */
  datatype Pattern = Exact(path: string) | Under(prefix: string) | AnyPath

  predicate Matches(p: Pattern, path: string) {
    match p
    case Exact(q) => path == q
    case Under(q) => path == q || (|path| > |q| && path[..|q|] == q && path[|q|] == '/')
    case AnyPath => true
  }

  /** Some pattern of the list matches. */
  predicate AnyMatches(patterns: seq<Pattern>, path: string) {
    patterns != [] && (Matches(patterns[0], path) || AnyMatches(patterns[1..], path))
  }

  datatype Access = PermitAll | HasAnyRole(roles: seq<string>) | Authenticated

  /** A rule: an optional verb, the patterns it covers, and the access it grants. */
  datatype Rule = Rule(verb: Option<Verb>, patterns: seq<Pattern>, access: Access)

  predicate RuleMatches(rule: Rule, verb: Verb, path: string) {
    (rule.verb.None? || rule.verb.value == verb) && AnyMatches(rule.patterns, path)
  }

  const OptionsRule := Rule(Some(OPTIONS), [AnyPath], PermitAll)
  const PublicApiRule := Rule(None, [Under("/v1/api/public"), Exact("/v1/api/post/categories")], PermitAll)
  const PublicDocsRule := Rule(None, [Under("/public"), Under("/swagger-ui"), Under("/v3/api-docs")], PermitAll)
  const ReadRule := Rule(Some(GET), [Under("/v1/api/comment"), Exact("/v1/api/post")], PermitAll)
  const AdminRule := Rule(None, [Under("/v1/api/admin")], HasAnyRole(["ADMIN", "ROOT"]))
  const AnyRule := Rule(None, [AnyPath], Authenticated)

  /** The rules in the order they are declared; the first that matches decides. */
  const Rules: seq<Rule> := [OptionsRule, PublicApiRule, PublicDocsRule, ReadRule, AdminRule, AnyRule]

  /** What happens to a request: it goes through, the entry point answers 401 because nobody
      is logged in, or the access-denied handler answers 403. */
  datatype Decision = Permit | Unauthenticated | Forbidden

  /** The decision of one access rule for a caller: `None` is anonymous, `Some(a)` a logged-in
      caller with authorities `a`. */
  function Apply(access: Access, caller: Option<seq<string>>): (d: Decision)
    ensures access.PermitAll? ==> d == Permit
    ensures (caller.None? && !access.PermitAll?) ==> d == Unauthenticated
    ensures (access.Authenticated? && caller.Some?) ==> d == Permit
    ensures (access.HasAnyRole? && caller.Some?) ==>
      (d == Permit <==> exists i | 0 <= i < |access.roles| :: RolePrefix + access.roles[i] in caller.value)
  {
    match access
    case PermitAll => Permit
    case Authenticated => if caller.Some? then Permit else Unauthenticated
    case HasAnyRole(roles) =>
      if caller.None? then Unauthenticated
      else if exists i | 0 <= i < |roles| :: RolePrefix + roles[i] in caller.value then Permit
      else Forbidden
  }

  /** The first rule of `rules` that matches decides; a request no rule matches is refused. */
  function Decide(rules: seq<Rule>, verb: Verb, path: string, caller: Option<seq<string>>): (d: Decision)
    ensures (rules != [] && RuleMatches(rules[0], verb, path)) ==> d == Apply(rules[0].access, caller)
  {
    if rules == [] then Forbidden
    else if RuleMatches(rules[0], verb, path) then Apply(rules[0].access, caller)
    else Decide(rules[1..], verb, path, caller)
  }

  /** The decision of the configured chain; a preflight request always passes. */
  function Authorize(verb: Verb, path: string, caller: Option<seq<string>>): (d: Decision)
    ensures verb == OPTIONS ==> d == Permit
  {
    Decide(Rules, verb, path, caller)
  }

  predicate IsPublic(verb: Verb, path: string) {
    RuleMatches(PublicApiRule, verb, path) || RuleMatches(PublicDocsRule, verb, path) || RuleMatches(ReadRule, verb, path)
  }

  predicate IsAdminPath(path: string) {
    Matches(Under("/v1/api/admin"), path)
  }

  /** The first public rule, pattern by pattern. */
  lemma PublicApiRuleMatches(verb: Verb, path: string)
    ensures RuleMatches(PublicApiRule, verb, path) <==>
      Matches(Under("/v1/api/public"), path) || path == "/v1/api/post/categories"
  {
    var api := PublicApiRule.patterns;
    assert AnyMatches(api, path) == (Matches(api[0], path) || AnyMatches(api[1..], path));
    assert AnyMatches(api[1..], path) == (Matches(api[1], path) || AnyMatches(api[2..], path));
    assert api[2..] == [];
  }

  /** The documentation rule, pattern by pattern. */
  lemma PublicDocsRuleMatches(verb: Verb, path: string)
    ensures RuleMatches(PublicDocsRule, verb, path) <==>
      Matches(Under("/public"), path) || Matches(Under("/swagger-ui"), path) || Matches(Under("/v3/api-docs"), path)
  {
    var docs := PublicDocsRule.patterns;
    assert AnyMatches(docs, path) == (Matches(docs[0], path) || AnyMatches(docs[1..], path));
    assert AnyMatches(docs[1..], path) == (Matches(docs[1], path) || AnyMatches(docs[2..], path));
    assert AnyMatches(docs[2..], path) == (Matches(docs[2], path) || AnyMatches(docs[3..], path));
    assert docs[3..] == [];
  }

  /** The read rule, pattern by pattern. */
  lemma ReadRuleMatches(verb: Verb, path: string)
    ensures RuleMatches(ReadRule, verb, path) <==>
      verb == GET && (Matches(Under("/v1/api/comment"), path) || path == "/v1/api/post")
  {
    var read := ReadRule.patterns;
    assert AnyMatches(read, path) == (Matches(read[0], path) || AnyMatches(read[1..], path));
    assert AnyMatches(read[1..], path) == (Matches(read[1], path) || AnyMatches(read[2..], path));
    assert read[2..] == [];
  }

  /** The rules with a single pattern. */
  lemma SinglePatternRulesMatch(verb: Verb, path: string)
    ensures RuleMatches(OptionsRule, verb, path) <==> verb == OPTIONS
    ensures RuleMatches(AdminRule, verb, path) <==> IsAdminPath(path)
    ensures RuleMatches(AnyRule, verb, path)
  {
    var admin := AdminRule.patterns;
    assert AnyMatches(admin, path) == (Matches(admin[0], path) || AnyMatches(admin[1..], path));
    assert admin[1..] == [];
  }

  /** The chain, rule by rule: OPTIONS always passes, then the public paths, then the
      administrator's pages need a role, and everything else a login. */
  lemma AuthorizeCases(verb: Verb, path: string, caller: Option<seq<string>>)
    ensures verb == OPTIONS ==> Authorize(verb, path, caller) == Permit
    ensures (verb != OPTIONS && IsPublic(verb, path)) ==> Authorize(verb, path, caller) == Permit
    ensures (verb != OPTIONS && !IsPublic(verb, path) && IsAdminPath(path)) ==>
      Authorize(verb, path, caller) == Apply(AdminRule.access, caller)
    ensures (verb != OPTIONS && !IsPublic(verb, path) && !IsAdminPath(path)) ==>
      Authorize(verb, path, caller) == Apply(AnyRule.access, caller)
  {
    var r := Rules;
    assert r[1..] == [PublicApiRule, PublicDocsRule, ReadRule, AdminRule, AnyRule];
    assert r[2..] == [PublicDocsRule, ReadRule, AdminRule, AnyRule];
    assert r[3..] == [ReadRule, AdminRule, AnyRule];
    assert Decide(r, verb, path, caller) ==
      if RuleMatches(OptionsRule, verb, path) then Permit else Decide(r[1..], verb, path, caller);
    assert Decide(r[1..], verb, path, caller) ==
      if RuleMatches(PublicApiRule, verb, path) then Permit else Decide(r[2..], verb, path, caller);
    assert Decide(r[2..], verb, path, caller) ==
      if RuleMatches(PublicDocsRule, verb, path) then Permit else Decide(r[3..], verb, path, caller);
    SinglePatternRulesMatch(verb, path);
    ChainTail(verb, path, caller);
  }

  /** The last three rules: reading, the administrator's pages, and everything else. */
  lemma ChainTail(verb: Verb, path: string, caller: Option<seq<string>>)
    ensures Decide(Rules[3..], verb, path, caller) ==
      if RuleMatches(ReadRule, verb, path) then Permit
      else if IsAdminPath(path) then Apply(AdminRule.access, caller)
      else Apply(AnyRule.access, caller)
  {
    var r := Rules[3..];
    assert r == [ReadRule, AdminRule, AnyRule];
    assert r[1..] == [AdminRule, AnyRule] && r[2..] == [AnyRule];
    SinglePatternRulesMatch(verb, path);
    assert Decide(r[1..], verb, path, caller) ==
      if IsAdminPath(path) then Apply(AdminRule.access, caller) else Decide(r[2..], verb, path, caller);
  }

  /** A path under a prefix agrees with it wherever the prefix has a character. */
  lemma UnderAt(q: string, path: string, j: nat)
    requires j < |q| && Matches(Under(q), path)
    ensures j < |path| && path[j] == q[j]
  {
    if path != q {
      assert path[..|q|][j] == path[j];
    }
  }

  /** Two path prefixes that differ at some position never match the same path. */
  lemma PrefixesDisjoint(q: string, a: string, path: string, j: nat)
    requires j < |q| && j < |a| && q[j] != a[j]
    ensures Matches(Under(q), path) ==> !Matches(Under(a), path)
  {
    if Matches(Under(q), path) {
      UnderAt(q, path, j);
    }
  }

  /** No public path is an administrator's page. */
  lemma AdminNotPublic(verb: Verb, path: string)
    requires IsAdminPath(path)
    ensures !IsPublic(verb, path)
  {
    var admin := "/v1/api/admin";
    UnderAt(admin, path, 1);
    UnderAt(admin, path, 2);
    UnderAt(admin, path, 8);
    assert !Matches(Under("/v1/api/public"), path) by { PrefixesDisjoint(admin, "/v1/api/public", path, 8); }
    assert !Matches(Under("/public"), path) by { PrefixesDisjoint(admin, "/public", path, 1); }
    assert !Matches(Under("/swagger-ui"), path) by { PrefixesDisjoint(admin, "/swagger-ui", path, 1); }
    assert !Matches(Under("/v3/api-docs"), path) by { PrefixesDisjoint(admin, "/v3/api-docs", path, 2); }
    assert !Matches(Under("/v1/api/comment"), path) by { PrefixesDisjoint(admin, "/v1/api/comment", path, 8); }
    assert path != "/v1/api/post/categories" && path != "/v1/api/post";
    PublicApiRuleMatches(verb, path);
    PublicDocsRuleMatches(verb, path);
    ReadRuleMatches(verb, path);
  }

  /** An administrator's page needs the ADMIN or the ROOT role: anonymous callers get 401,
      callers with neither role 403. */
  lemma AdminNeedsRole(verb: Verb, path: string, caller: Option<seq<string>>)
    requires verb != OPTIONS && IsAdminPath(path)
    ensures Authorize(verb, path, caller) == Permit <==>
      caller.Some? && ("ROLE_ADMIN" in caller.value || "ROLE_ROOT" in caller.value)
    ensures caller.None? ==> Authorize(verb, path, caller) == Unauthenticated
  {
    AdminNotPublic(verb, path);
    AuthorizeCases(verb, path, caller);
    var roles := AdminRule.access.roles;
    assert RolePrefix + roles[0] == "ROLE_ADMIN" && RolePrefix + roles[1] == "ROLE_ROOT";
  }

  /** A token whose realm roles include ADMIN or ROOT opens the administrator's pages. */
  lemma AdminRoleOpensAdminPages(verb: Verb, path: string, roles: seq<string>)
    requires verb != OPTIONS && IsAdminPath(path) && ("ADMIN" in roles || "ROOT" in roles)
    ensures Authorize(verb, path, Some(Prefixed(roles))) == Permit
  {
    AdminNeedsRole(verb, path, Some(Prefixed(roles)));
    var a := Prefixed(roles);
    if "ADMIN" in roles {
      var i :| 0 <= i < |roles| && roles[i] == "ADMIN";
      assert a[i] == "ROLE_ADMIN";
    } else {
      var i :| 0 <= i < |roles| && roles[i] == "ROOT";
      assert a[i] == "ROLE_ROOT";
    }
  }

  /** More authorities never lose access, and what an anonymous caller may do, everyone may. */
  lemma MoreAuthoritiesNeverHurt(verb: Verb, path: string, a: seq<string>, b: seq<string>)
    requires forall x | x in a :: x in b
    ensures Authorize(verb, path, Some(a)) == Permit ==> Authorize(verb, path, Some(b)) == Permit
    ensures Authorize(verb, path, None) == Permit ==> Authorize(verb, path, Some(a)) == Permit
  {
    AuthorizeCases(verb, path, Some(a));
    AuthorizeCases(verb, path, Some(b));
    AuthorizeCases(verb, path, None);
  }
}
