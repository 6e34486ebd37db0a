/**
 * The client-side route guard: while the session is known and there is no
 * signed-in user, every non-public path is sent to the login page.
 */
module Auth {
  import opened Wrappers

  /** The session hook's `status`. */
  datatype SessionStatus = Loading | Authenticated | Unauthenticated

  /** The signed-in user as the session reports it. */
  datatype User = User(name: Option<string>, email: Option<string>)

  datatype Session = Session(user: Option<User>)

  /** What the provider hands to the guard. */
  datatype AuthContext = AuthContext(user: Option<User>, isAuthenticating: bool)

  const LoginPath: string := "/login"

  /** `status === 'loading'` */
  predicate IsAuthenticating(status: SessionStatus) {
    status == Loading
  }

  /** The provider's value: `isAuthenticating` from the status and
      `session?.user ?? null`.  What the provider promises its consumers is
      stated by the lemmas below about this value and `GuardRedirect`. */
  function ContextOf(status: SessionStatus, session: Option<Session>): (ctx: AuthContext)
    ensures ctx.isAuthenticating <==> status == Loading
    ensures ctx.user.Some? <==> session.Some? && session.value.user.Some?
  {
    AuthContext(if session.Some? then session.value.user else None, IsAuthenticating(status))
  }

  /** `s.startsWith(prefix)` */
  predicate StartsWith(s: string, prefix: string) {
    |prefix| <= |s| && s[..|prefix|] == prefix
  }

  /** The home and login pages match exactly; anything under `/blog` or
      `/_next` matches by prefix. */
  predicate IsPublicRoute(pathname: string)
    ensures IsPublicRoute(pathname) ==> pathname != [] && pathname[0] == '/'
  {
    pathname == "/" || pathname == LoginPath || StartsWith(pathname, "/blog") || StartsWith(pathname, "/_next")
  }

  /** The guard's effect for one render: `Some(target)` when it pushes the
      router to `target`, `None` when it leaves the page alone.  The lemmas
      that follow carry the guard's promises: nothing happens while the session
      loads or with a user present, and a redirect settles on the login page. */
  function GuardRedirect(ctx: AuthContext, pathname: string): (target: Option<string>)
    ensures target.Some? <==> !ctx.isAuthenticating && ctx.user.None? && !IsPublicRoute(pathname)
    ensures target.Some? ==> target.value == LoginPath && IsPublicRoute(target.value)
  {
    if !ctx.isAuthenticating && ctx.user.None? && !IsPublicRoute(pathname) then Some(LoginPath) else None
  }

  /** While the session loads, no path is ever redirected. */
  lemma NoRedirectWhileLoading(session: Option<Session>, pathname: string)
    ensures GuardRedirect(ContextOf(Loading, session), pathname) == None
  {
  }

  /** With a user present, no path is ever redirected. */
  lemma NoRedirectWithUser(status: SessionStatus, s: Session, pathname: string)
    requires s.user.Some?
    ensures GuardRedirect(ContextOf(status, Some(s)), pathname) == None
  {
  }

  /** Once the session is known and empty, exactly the non-public paths go to
      the login page, and the login page itself stays put. */
  lemma UnauthenticatedRedirects(status: SessionStatus, session: Option<Session>, pathname: string)
    requires status != Loading && (session.None? || session.value.user.None?)
    ensures GuardRedirect(ContextOf(status, session), pathname) == (if IsPublicRoute(pathname) then None else Some(LoginPath))
    ensures GuardRedirect(ContextOf(status, session), LoginPath) == None
  {
  }

  /** A redirect lands on a page the guard leaves alone, so it never repeats. */
  lemma RedirectSettles(ctx: AuthContext, pathname: string)
    requires GuardRedirect(ctx, pathname).Some?
    ensures GuardRedirect(ctx, GuardRedirect(ctx, pathname).value) == None
  {
  }

  lemma {:induction false} StartsWithExtend(s: string, prefix: string, rest: string)
    requires StartsWith(s, prefix)
    ensures StartsWith(s + rest, prefix)
  {
    assert (s + rest)[..|prefix|] == s[..|prefix|];
  }

  /** Everything under `/blog` and `/_next` is public, including paths such as
      `/blogger` that only share the prefix. */
  lemma PrefixRoutesPublic(rest: string)
    ensures IsPublicRoute("/blog" + rest) && IsPublicRoute("/_next" + rest)
  {
    StartsWithExtend("/blog", "/blog", rest);
    StartsWithExtend("/_next", "/_next", rest);
  }

  /** A path under `/` starts with `/` then `prefix` exactly when the rest of it
      starts with `prefix`. */
  lemma StartsWithSlash(rest: string, prefix: string)
    ensures StartsWith("/" + rest, "/" + prefix) <==> StartsWith(rest, prefix)
  {
    var q, p := "/" + rest, "/" + prefix;
    if |prefix| <= |rest| {
      assert q[..|p|] == "/" + rest[..|prefix|];
      if q[..|p|] == p {
        forall i | 0 <= i < |prefix| ensures rest[i] == prefix[i] {
          assert rest[i] == q[i + 1] && prefix[i] == p[i + 1];
        }
      }
    }
  }

  /** The home and login pages are public, but only as exact paths: nothing
      below `/login` is public, and below `/` only the login page and the `blog`
      and `_next` prefixes are. */
  lemma {:induction false} ExactRoutesNotExtended(rest: string)
    ensures rest != [] ==> !IsPublicRoute(LoginPath + rest)
    ensures IsPublicRoute("/" + rest) <==>
              rest == [] || rest == "login" || StartsWith(rest, "blog") || StartsWith(rest, "_next")
  {
    if rest == [] {
      assert "/" + rest == "/";
    } else {
      var p := LoginPath + rest;
      assert p[..5] == "/logi";
      assert |p| != |LoginPath|;
      var q := "/" + rest;
      assert q != "/";
      assert q[1..] == rest;
      StartsWithSlash(rest, "blog");
      assert "/" + "blog" == "/blog";
      StartsWithSlash(rest, "_next");
      assert "/" + "_next" == "/_next";
      assert q == LoginPath <==> rest == "login" by {
        if rest == "login" {
          forall i | 0 <= i < 6 ensures q[i] == LoginPath[i] {
            if 0 < i {
              assert q[i] == rest[i - 1];
            }
          }
        }
      }
    }
  }
}
