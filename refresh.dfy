/** The token refresh operation of an auth-enabled collection: fold the
    `beforeOperation` hooks over the arguments, refuse a token that is not a
    string, look the user up (depth 0 for GraphQL requests, the collection's auth
    depth otherwise), sign a fresh token, set the `<prefix>-token` cookie when
    there is a response, fold the `afterRefresh` hooks over the result, run the
    `afterOperation` hooks and drop the token from the result when the collection
    says so.

    URL parsing, the user lookup, the fields to sign, JWT signing and decoding,
    the cookie expiry and the `afterOperation` hooks are collaborators given as
    functions. The user lookup and the cookie written to the response are
    returned as a list of effects. */
module AuthRefresh {
  import opened Common
  import opened HookPipeline

  datatype CookieSettings = CookieSettings(secure: bool, sameSite: Json, domain: Option<string>)

  datatype AuthSettings = AuthSettings(
    depth: Option<int>,
    tokenExpiration: int,
    removeTokenFromResponses: bool,
    cookies: CookieSettings)

  datatype CollectionConfig = CollectionConfig(slug: string, auth: AuthSettings)

  /** The signed-in user the request carries. */
  datatype SessionUser = SessionUser(id: Json, collection: string)

  datatype Request = Request(url: string, user: Option<SessionUser>)

  /** The operation's arguments; `token` is whatever the caller extracted (not
      necessarily a string) and `hasResponse` says whether `res` was given. */
  datatype RefreshArgs = RefreshArgs(collection: CollectionConfig, token: Json, req: Request, hasResponse: bool)

  datatype RefreshResult = RefreshResult(user: Json, refreshedToken: Option<string>, exp: int)

  datatype CookieOptions = CookieOptions(
    path: string,
    httpOnly: bool,
    expires: int,
    secure: bool,
    sameSite: Json,
    domain: Option<string>)

  /** What the operation does outside its result. */
  datatype Effect =
    | LookedUpUser(id: Json, userCollection: string, depth: Option<int>)
    | SetCookie(name: string, value: string, options: CookieOptions)

  /** An `afterRefresh` hook is given the new `exp` and token, not the result. */
  type AfterRefreshHook = (int, string) -> Outcome<Option<RefreshResult>>

  datatype ServerConfig = ServerConfig(secret: string, graphQLRoute: string, cookiePrefix: string)

  datatype Collaborators = Collaborators(
    server: ServerConfig,
    beforeOperation: CollectionConfig -> seq<Hook<RefreshArgs>>,  // the collection's hooks
    afterRefresh: CollectionConfig -> seq<AfterRefreshHook>,
    pathname: string -> Option<string>,                           // `url.parse(u).pathname`
    findByID: (Json, string, Option<int>) -> Outcome<Json>,       // JNull when absent
    fieldsToSign: (CollectionConfig, SessionUser, Json) -> Json,
    sign: (Json, string, int) -> string,                          // `jwt.sign`
    expOf: string -> int,                                         // `jwt.decode(t).exp`
    cookieExpiration: int -> int,
    afterOperation: (RefreshArgs, RefreshResult) -> Outcome<RefreshResult>)

  datatype Run = Run(out: Outcome<RefreshResult>, effects: seq<Effect>)

  /** `user?.email`: the `email` member of a user document, undefined (JNull) otherwise. */
  function EmailOf(user: Json): Json {
    if user.JObj? && "email" in user.fields then user.fields["email"] else JNull
  }

  /** The depth of the user lookup: 0 for a GraphQL request, else the auth depth. */
  function LookupDepth(env: Collaborators, args: RefreshArgs): Option<int> {
    if env.pathname(args.req.url) == Some(env.server.graphQLRoute) then Some(0) else args.collection.auth.depth
  }

  /** The freshly signed token for a user document. */
  function SignedToken(env: Collaborators, args: RefreshArgs, session: SessionUser, user: Json): string {
    env.sign(env.fieldsToSign(args.collection, session, EmailOf(user)), env.server.secret,
             args.collection.auth.tokenExpiration)
  }

  /** The cookie set on the response: a truthy configured domain is used, else none. */
  function TokenCookie(env: Collaborators, config: CollectionConfig, token: string): (e: Effect)
    ensures e.SetCookie? && e.name == env.server.cookiePrefix + "-token" && e.value == token
    ensures e.options.path == "/" && e.options.httpOnly
    ensures e.options.domain.Some? <==> config.auth.cookies.domain.Some? && config.auth.cookies.domain.value != ""
    ensures e.options.domain.Some? ==> e.options.domain == config.auth.cookies.domain
  {
    var cookies := config.auth.cookies;
    var options := CookieOptions("/", true, env.cookieExpiration(config.auth.tokenExpiration),
                                 cookies.secure, cookies.sameSite, None);
    var options := if cookies.domain.Some? && cookies.domain.value != "" then options.(domain := cookies.domain) else options;
    SetCookie(env.server.cookiePrefix + "-token", token, options)
  }

  /** The `afterRefresh` hooks as a phase over the result: each ignores the result it is handed. */
  function AfterRefreshPhase(hooks: seq<AfterRefreshHook>, exp: int, token: string): (phase: seq<Hook<RefreshResult>>)
    ensures |phase| == |hooks|
    ensures forall i, r :: 0 <= i < |hooks| ==> phase[i](r) == hooks[i](exp, token)
  {
    seq(|hooks|, i requires 0 <= i < |hooks| => (r: RefreshResult) => hooks[i](exp, token))
  }

  /** `delete result.refreshedToken` when the collection removes tokens from responses. */
  function StripToken(remove: bool, r: RefreshResult): (s: RefreshResult)
    ensures s.user == r.user && s.exp == r.exp
    ensures s.refreshedToken == if remove then None else r.refreshedToken
  {
    if remove then r.(refreshedToken := None) else r
  }

  /** One refresh, from the incoming arguments. */
  function RefreshRun(env: Collaborators, incoming: RefreshArgs): Run {
    var folded := Fold(env.beforeOperation(incoming.collection), incoming);
    if folded.Thrown? then Run(Thrown(folded.error), [])
    else
      var args := folded.value;
      var config := args.collection;
      if !args.token.JStr? then Run(Thrown(Forbidden), [])
      else if args.req.user.None? then Run(Thrown(TypeError), [])
      else
        var session := args.req.user.value;
        var depth := LookupDepth(env, args);
        var lookup := [LookedUpUser(session.id, session.collection, depth)];
        var user := env.findByID(session.id, session.collection, depth);
        if user.Thrown? then Run(Thrown(user.error), lookup)
        else
          var token := SignedToken(env, args, session, user.value);
          var exp := env.expOf(token);
          var effects := lookup + (if args.hasResponse then [TokenCookie(env, config, token)] else []);
          var hooked := Fold(AfterRefreshPhase(env.afterRefresh(config), exp, token),
                             RefreshResult(user.value, Some(token), exp));
          if hooked.Thrown? then Run(Thrown(hooked.error), effects)
          else
            var after := env.afterOperation(args, hooked.value);
            if after.Thrown? then Run(Thrown(after.error), effects)
            else Run(Ok(StripToken(config.auth.removeTokenFromResponses, after.value)), effects)
  }

  /** The operation as the source writes it: `args` and `result` reassigned by the hook loops. */
  method Refresh(env: Collaborators, incoming: RefreshArgs) returns (result: Outcome<RefreshResult>, effects: seq<Effect>)
    ensures Run(result, effects) == RefreshRun(env, incoming)
  {
    effects := [];
    var folded := RunHooks(env.beforeOperation(incoming.collection), incoming);
    if folded.Thrown? {
      return Thrown(folded.error), effects;
    }
    var args := folded.value;
    var config := args.collection;

    if !args.token.JStr? {
      return Thrown(Forbidden), effects;
    }
    var isGraphQL := env.pathname(args.req.url) == Some(env.server.graphQLRoute);
    if args.req.user.None? {
      return Thrown(TypeError), effects;
    }
    var session := args.req.user.value;
    var depth := if isGraphQL then Some(0) else config.auth.depth;
    effects := effects + [LookedUpUser(session.id, session.collection, depth)];
    var user := env.findByID(session.id, session.collection, depth);
    if user.Thrown? {
      return Thrown(user.error), effects;
    }

    var fieldsToSign := env.fieldsToSign(config, session, EmailOf(user.value));
    var refreshedToken := env.sign(fieldsToSign, env.server.secret, config.auth.tokenExpiration);
    var exp := env.expOf(refreshedToken);

    if args.hasResponse {
      effects := effects + [TokenCookie(env, config, refreshedToken)];
    }

    var hooked := RunHooks(AfterRefreshPhase(env.afterRefresh(config), exp, refreshedToken),
                           RefreshResult(user.value, Some(refreshedToken), exp));
    if hooked.Thrown? {
      return hooked, effects;
    }
    var after := env.afterOperation(args, hooked.value);
    if after.Thrown? {
      return after, effects;
    }
    var r := after.value;
    if config.auth.removeTokenFromResponses {
      r := r.(refreshedToken := None);
    }
    result := Ok(r);
  }

  // ----- Properties of the operation -----

  /** The token is checked after the `beforeOperation` hooks: whatever the caller
      passed, a non-string token left by the hooks is refused with nothing done,
      and a string token left by them lets the user lookup happen, at depth 0
      for a GraphQL request and at the collection's auth depth otherwise. */
  lemma TokenGuardAfterHooks(env: Collaborators, incoming: RefreshArgs, args: RefreshArgs)
    requires Fold(env.beforeOperation(incoming.collection), incoming) == Ok(args)
    ensures !args.token.JStr? ==> RefreshRun(env, incoming) == Run(Thrown(Forbidden), [])
    ensures args.token.JStr? && args.req.user.Some? ==>
      var effects := RefreshRun(env, incoming).effects;
      |effects| >= 1 &&
      effects[0] == LookedUpUser(args.req.user.value.id, args.req.user.value.collection,
                                 if env.pathname(args.req.url) == Some(env.server.graphQLRoute)
                                 then Some(0) else args.collection.auth.depth)
  {
  }

  /** Every cookie the operation sets is `<prefix>-token`, with path `/`,
      `httpOnly`, and a domain only when a non-empty one is configured; one is set
      exactly when a response is present and the user lookup succeeded, and it stays
      set even if a later hook throws. */
  lemma CookieSetOnlyWithResponse(env: Collaborators, incoming: RefreshArgs, args: RefreshArgs, user: Json)
    requires Fold(env.beforeOperation(incoming.collection), incoming) == Ok(args)
    requires args.token.JStr? && args.req.user.Some?
    requires env.findByID(args.req.user.value.id, args.req.user.value.collection, LookupDepth(env, args)) == Ok(user)
    ensures var effects := RefreshRun(env, incoming).effects;
      var token := SignedToken(env, args, args.req.user.value, user);
      |effects| == (if args.hasResponse then 2 else 1)
      && (args.hasResponse ==>
            effects[1].SetCookie? && effects[1].name == env.server.cookiePrefix + "-token"
            && effects[1].value == token
            && effects[1].options.path == "/" && effects[1].options.httpOnly
            && effects[1].options.domain ==
                 (if args.collection.auth.cookies.domain.Some? && args.collection.auth.cookies.domain.value != ""
                  then args.collection.auth.cookies.domain else None))
  {
  }

  /** A hook that runs after the cookie was set cannot unset it. */
  lemma CookieSurvivesLaterFailure(env: Collaborators, incoming: RefreshArgs, args: RefreshArgs, user: Json)
    requires Fold(env.beforeOperation(incoming.collection), incoming) == Ok(args)
    requires args.token.JStr? && args.req.user.Some? && args.hasResponse
    requires env.findByID(args.req.user.value.id, args.req.user.value.collection, LookupDepth(env, args)) == Ok(user)
    ensures RefreshRun(env, incoming).out.Thrown? ==>
      (exists i :: 0 <= i < |RefreshRun(env, incoming).effects| && RefreshRun(env, incoming).effects[i].SetCookie?)
  {
    assert RefreshRun(env, incoming).effects[1].SetCookie?;
  }

  /** The `afterRefresh` hooks do not see the result, so the result after them is
      the last non-falsy value one of them returned: if, given the new `exp` and
      token, the hooks before `j` do not throw, hook `j` returns `w` and every later
      hook returns nothing, then `afterOperation` is handed `w`. */
  lemma LastAfterRefreshReplacementWins(env: Collaborators, incoming: RefreshArgs, args: RefreshArgs,
                                        user: Json, j: nat, w: RefreshResult)
    requires Fold(env.beforeOperation(incoming.collection), incoming) == Ok(args)
    requires args.token.JStr? && args.req.user.Some?
    requires env.findByID(args.req.user.value.id, args.req.user.value.collection, LookupDepth(env, args)) == Ok(user)
    requires forall x, y :: env.afterOperation(x, y) == Ok(y)
    requires j < |env.afterRefresh(args.collection)|
    requires var token := SignedToken(env, args, args.req.user.value, user);
      forall i :: 0 <= i < j ==> env.afterRefresh(args.collection)[i](env.expOf(token), token).Ok?
    requires var token := SignedToken(env, args, args.req.user.value, user);
      env.afterRefresh(args.collection)[j](env.expOf(token), token) == Ok(Some(w))
    requires var token := SignedToken(env, args, args.req.user.value, user);
      forall i :: j < i < |env.afterRefresh(args.collection)| ==>
        env.afterRefresh(args.collection)[i](env.expOf(token), token) == Ok(None)
    ensures RefreshRun(env, incoming).out == Ok(StripToken(args.collection.auth.removeTokenFromResponses, w))
  {
    var token := SignedToken(env, args, args.req.user.value, user);
    var exp := env.expOf(token);
    var phase := AfterRefreshPhase(env.afterRefresh(args.collection), exp, token);
    var start := RefreshResult(user, Some(token), exp);
    FoldNeverThrows(phase[..j], start);
    var u := Fold(phase[..j], start).value;
    assert phase == phase[..j] + [phase[j]] + phase[j + 1..];
    FoldAppend(phase[..j] + [phase[j]], phase[j + 1..], start);
    FoldAppend(phase[..j], [phase[j]], start);
    assert Fold([phase[j]], u) == Ok(w);
    FoldFalsyKeeps(phase[j + 1..], w);
  }

  /** With `afterRefresh` hooks that all return nothing for the new token and
      `afterOperation` hooks that keep the result, the returned result lacks the
      token exactly when the collection removes tokens from responses, and
      otherwise carries the freshly signed one. */
  lemma TokenRemovedExactlyWhenConfigured(env: Collaborators, incoming: RefreshArgs, args: RefreshArgs, user: Json)
    requires Fold(env.beforeOperation(incoming.collection), incoming) == Ok(args)
    requires args.token.JStr? && args.req.user.Some?
    requires env.findByID(args.req.user.value.id, args.req.user.value.collection, LookupDepth(env, args)) == Ok(user)
    requires var token := SignedToken(env, args, args.req.user.value, user);
      forall i :: 0 <= i < |env.afterRefresh(args.collection)| ==>
        env.afterRefresh(args.collection)[i](env.expOf(token), token) == Ok(None)
    requires forall x, y :: env.afterOperation(x, y) == Ok(y)
    ensures RefreshRun(env, incoming).out.Ok?
    ensures RefreshRun(env, incoming).out.value.refreshedToken ==
      if args.collection.auth.removeTokenFromResponses then None
      else Some(SignedToken(env, args, args.req.user.value, user))
  {
    var token := SignedToken(env, args, args.req.user.value, user);
    var exp := env.expOf(token);
    FoldFalsyKeeps(AfterRefreshPhase(env.afterRefresh(args.collection), exp, token), RefreshResult(user, Some(token), exp));
  }

  /** Whatever the hooks return, a collection that removes tokens never returns one. */
  lemma NoTokenWhenRemoved(env: Collaborators, incoming: RefreshArgs, args: RefreshArgs)
    requires Fold(env.beforeOperation(incoming.collection), incoming) == Ok(args)
    requires args.collection.auth.removeTokenFromResponses
    ensures RefreshRun(env, incoming).out.Ok? ==> RefreshRun(env, incoming).out.value.refreshedToken.None?
  {
  }
}
