/**
 * The backend's request-authorisation table: an ordered list of rules, each a
 * restriction on the HTTP method and a set of path patterns, of which the first rule that
 * matches a request decides whether it needs an authenticated user.
 * A pattern ending in a double-star segment matches the path before it and every path below it.
 */
module Security {
  import opened Wrappers
  import opened Text

  datatype HttpMethod = Get | Head | Post | Put | Patch | Delete | Options | Trace

  datatype Request = Request(httpMethod: HttpMethod, path: string)

  datatype Access = PermitAll | Authenticated

  datatype Pattern =
    | Exact(path: string)     // the path itself
    | Subtree(root: string)   // `root` followed by the double-star segment: `root` and every path below it
    | AnyPath                 // `anyRequest()`

  /** A rule applies to every method when `httpMethod` is `None`. */
  datatype Rule = Rule(httpMethod: Option<HttpMethod>, patterns: seq<Pattern>, access: Access)

  predicate PatternMatches(p: Pattern, path: string) {
    match p
    case Exact(q) => path == q
    case Subtree(root) => path == root || StartsWith(path, root + "/")
    case AnyPath => true
  }

  predicate RuleMatches(rule: Rule, req: Request) {
    && (rule.httpMethod.None? || rule.httpMethod.value == req.httpMethod)
    && exists k :: 0 <= k < |rule.patterns| && PatternMatches(rule.patterns[k], req.path)
  }

  /** The table in declaration order. */
  const Rules: seq<Rule> := [
    Rule(Some(Get), [Exact("/api/challenges"), Subtree("/api/challenges")], PermitAll),
    Rule(None, [Exact("/api/users/me")], Authenticated),
    Rule(None, [Subtree("/api/submissions")], Authenticated),
    Rule(None, [Exact("/actuator/health")], PermitAll),
    Rule(None, [AnyPath], Authenticated)
  ]

  /** The index of the first rule in `rules` that matches `req`, if any. */
  function FirstMatch(rules: seq<Rule>, req: Request): (r: Option<nat>)
    ensures r.Some? ==> r.value < |rules| && RuleMatches(rules[r.value], req)
    ensures r.Some? ==> forall k :: 0 <= k < r.value ==> !RuleMatches(rules[k], req)
    ensures r.None? ==> forall k :: 0 <= k < |rules| ==> !RuleMatches(rules[k], req)
  {
    if |rules| == 0 then None
    else if RuleMatches(rules[0], req) then Some(0)
    else match FirstMatch(rules[1..], req)
      case None => None
      case Some(k) => Some(k + 1)
  }

  /** The access the table grants; the final catch-all rule always matches. */
  function Decide(req: Request): (r: Access)
    ensures exists i :: 0 <= i < |Rules| && RuleMatches(Rules[i], req) && r == Rules[i].access
  {
    assert RuleMatches(Rules[4], req) by {
      assert PatternMatches(Rules[4].patterns[0], req.path);
    }
    match FirstMatch(Rules, req)
    case Some(i) => Rules[i].access
    case None => assert false; Authenticated
  }

  /** The reading of the table as one sentence: a request is public exactly when
      it is a GET on the challenge catalogue or asks for the health check. */
  predicate Public(req: Request) {
    || (req.httpMethod == Get && PatternMatches(Subtree("/api/challenges"), req.path))
    || req.path == "/actuator/health"
  }

  /** The table read top to bottom: the first of the five rules that matches decides. */
  lemma DecideInOrder(req: Request)
    ensures Decide(req) == (if RuleMatches(Rules[0], req) then PermitAll
                            else if RuleMatches(Rules[1], req) then Authenticated
                            else if RuleMatches(Rules[2], req) then Authenticated
                            else if RuleMatches(Rules[3], req) then PermitAll
                            else Authenticated)
  {
    assert RuleMatches(Rules[4], req) by {
      assert PatternMatches(Rules[4].patterns[0], req.path);
    }
    var m := FirstMatch(Rules, req);
    assert m.Some? && m.value <= 4;
  }

  /** What each rule of the table matches, path by path. */
  lemma RulesMatch(req: Request)
    ensures RuleMatches(Rules[0], req) <==> req.httpMethod == Get && PatternMatches(Subtree("/api/challenges"), req.path)
    ensures RuleMatches(Rules[1], req) <==> req.path == "/api/users/me"
    ensures RuleMatches(Rules[2], req) <==> PatternMatches(Subtree("/api/submissions"), req.path)
    ensures RuleMatches(Rules[3], req) <==> req.path == "/actuator/health"
  {
    var p := req.path;
    assert PatternMatches(Rules[0].patterns[1], p) == PatternMatches(Subtree("/api/challenges"), p);
    assert PatternMatches(Rules[1].patterns[0], p) <==> p == "/api/users/me";
    assert Rules[2].patterns[0] == Subtree("/api/submissions");
    assert PatternMatches(Rules[3].patterns[0], p) <==> p == "/actuator/health";
  }

  /** The health check lies outside the three protected prefixes. */
  lemma HealthIsUnprotected()
    ensures !PatternMatches(Subtree("/api/challenges"), "/actuator/health")
    ensures !PatternMatches(Subtree("/api/submissions"), "/actuator/health")
  {
    var p := "/actuator/health";
    assert p[1] == 'a' && p[2] == 'c';
    assert ("/api/challenges" + "/")[2] == 'p';
    assert ("/api/submissions" + "/")[2] == 'p';
  }

  lemma DecideMeansPublic(req: Request)
    ensures Decide(req) == PermitAll <==> Public(req)
  {
    DecideInOrder(req);
    RulesMatch(req);
    HealthIsUnprotected();
  }

  /** Only GET is opened on the catalogue: creating a variant needs a login. */
  lemma GenerateNeedsLogin()
    ensures Decide(Request(Post, "/api/challenges/generate")) == Authenticated
  {
    var req := Request(Post, "/api/challenges/generate");
    assert !Public(req) by {
      assert |req.path| != |"/actuator/health"|;
    }
    DecideMeansPublic(req);
  }

  /** Every submission endpoint, GET included, needs a login. */
  lemma SubmissionsNeedLogin(m: HttpMethod, rest: string)
    ensures Decide(Request(m, "/api/submissions" + rest)) == Authenticated
  {
    var req := Request(m, "/api/submissions" + rest);
    var p := req.path;
    assert !Public(req) by {
      assert p[5] == 's';
      assert p[2] == 'p' && "/actuator/health"[2] == 'c';
      assert p[5] != ("/api/challenges" + "/")[5];
      assert p != "/api/challenges" by {
        assert p[5] != "/api/challenges"[5];
      }
    }
    DecideMeansPublic(req);
  }

  /** Reading one challenge or downloading its bundle is public. */
  lemma CatalogueIsPublic(rest: string)
    ensures Decide(Request(Get, "/api/challenges/" + rest)) == PermitAll
  {
    var req := Request(Get, "/api/challenges/" + rest);
    DecideMeansPublic(req);
    assert StartsWith(req.path, "/api/challenges" + "/");
  }
}
