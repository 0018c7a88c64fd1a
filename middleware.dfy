/**
 * The request middleware: which paths it runs on (`config.matcher`), the
 * redirect decision between the login page and the rest of the application,
 * and the cookie adapter through which the auth client refreshes its session
 * cookies on the request and on the response.
 */
module Middleware {
  import opened Wrappers
  import JsString

  const LoginPath: string := "/login"
  const HomePath: string := "/"

  /** `request.nextUrl.pathname.startsWith('/login')` */
  predicate IsAuthPage(path: string)
    ensures IsAuthPage(path) ==> |path| >= 6 && path[..6] == "/login"
  {
    JsString.StartsWith(path, LoginPath)
  }

  datatype Outcome = RedirectTo(target: string) | PassThrough

  /** The redirect decision, given whether the auth client found a signed-in user. */
  function Decide(signedIn: bool, path: string): (o: Outcome)
    ensures o == RedirectTo(LoginPath) <==> !signedIn && !IsAuthPage(path)
    ensures o == RedirectTo(HomePath) <==> signedIn && IsAuthPage(path)
    ensures o == PassThrough <==> signedIn != IsAuthPage(path)
  {
    if !signedIn && !IsAuthPage(path) then RedirectTo(LoginPath)
    else if signedIn && IsAuthPage(path) then RedirectTo(HomePath)
    else PassThrough
  }

  /** Every path that extends "/login" is treated as the login page, "/login-help" as much as "/login". */
  lemma {:induction false} LoginPrefixIsAuthPage(rest: string)
    ensures IsAuthPage(LoginPath + rest)
  {
    assert (LoginPath + rest)[..|LoginPath|] == LoginPath;
  }

  /** A redirect lands on a path the same user is let through on, so the two redirects never chain. */
  lemma RedirectTargetPassesThrough(signedIn: bool, path: string)
    requires Decide(signedIn, path).RedirectTo?
    ensures Decide(signedIn, Decide(signedIn, path).target) == PassThrough
  {
    if signedIn {
      assert !IsAuthPage(HomePath) by { assert |HomePath| < |LoginPath|; }
    } else {
      LoginPrefixIsAuthPage("");
      assert LoginPath + "" == LoginPath;
    }
  }

  // ------------------------------------------------------------ matcher

  /** No character of `s` is one a regular expression `.` refuses. */
  predicate NoLineTerminator(s: string)
  {
    forall i :: 0 <= i < |s| ==> !JsString.IsLineTerminator(s[i])
  }

  /** `favicon.ico` as a pattern: its dot is not escaped, so it stands for any one character but a line terminator. */
  predicate StartsFaviconLike(rest: string)
  {
    && |rest| >= 11
    && rest[..7] == "favicon"
    && !JsString.IsLineTerminator(rest[7])
    && rest[8..11] == "ico"
  }

  /** `.*\.(?:svg|png|jpg|jpeg|gif|webp)$` */
  predicate HasStaticExtension(rest: string)
  {
    && NoLineTerminator(rest)
    && (|| JsString.EndsWith(rest, ".svg") || JsString.EndsWith(rest, ".png")
        || JsString.EndsWith(rest, ".jpg") || JsString.EndsWith(rest, ".jpeg")
        || JsString.EndsWith(rest, ".gif") || JsString.EndsWith(rest, ".webp"))
  }

  /** The negative lookahead: what, right after the leading '/', keeps the middleware from running. */
  predicate Excluded(rest: string)
  {
    || JsString.StartsWith(rest, "_next/static")
    || JsString.StartsWith(rest, "_next/image")
    || StartsFaviconLike(rest)
    || HasStaticExtension(rest)
  }

  /** `config.matcher`, anchored at both ends of the pathname. */
  function MatcherRuns(path: string): (runs: bool)
    ensures runs ==> |path| >= 1 && path[0] == '/' && NoLineTerminator(path)
  {
    |path| >= 1 && path[0] == '/' && NoLineTerminator(path[1..]) && !Excluded(path[1..])
  }

  /** What a request receives: it is let through when the middleware does not run, else the decision applies. */
  function Route(signedIn: bool, path: string): (o: Outcome)
    ensures !MatcherRuns(path) ==> o == PassThrough
    ensures MatcherRuns(path) ==> o == Decide(signedIn, path)
  {
    if MatcherRuns(path) then Decide(signedIn, path) else PassThrough
  }

  /** A character that is not '.' keeps a text from ending in any of the static extensions. */
  lemma NoDotNoExtension(rest: string)
    requires forall i :: 0 <= i < |rest| ==> rest[i] != '.'
    ensures !HasStaticExtension(rest)
  {
    JsString.EndsWithFirst(rest, ".svg");
    JsString.EndsWithFirst(rest, ".png");
    JsString.EndsWithFirst(rest, ".jpg");
    JsString.EndsWithFirst(rest, ".jpeg");
    JsString.EndsWithFirst(rest, ".gif");
    JsString.EndsWithFirst(rest, ".webp");
  }

  /**
   * The middleware runs on every page path: one without a dot or a line
   * terminator that does not start with "_next/" or "favicon".
   */
  lemma RunsOnPages(path: string)
    requires |path| >= 1 && path[0] == '/'
    requires forall i :: 1 <= i < |path| ==> path[i] != '.' && !JsString.IsLineTerminator(path[i])
    requires !JsString.StartsWith(path[1..], "_next/") && !JsString.StartsWith(path[1..], "favicon")
    ensures MatcherRuns(path)
  {
    var rest := path[1..];
    NoDotNoExtension(rest);
    JsString.StartsWithLonger(rest, "_next/", "static");
    JsString.StartsWithLonger(rest, "_next/", "image");
  }

  /** Nothing under "/_next/static" or "/_next/image" runs the middleware. */
  lemma SkipsBuildAssets(rest: string)
    ensures !MatcherRuns("/_next/static" + rest)
    ensures !MatcherRuns("/_next/image" + rest)
  {
    var s := "/_next/static" + rest;
    var m := "/_next/image" + rest;
    assert s[1..] == "_next/static" + rest;
    assert m[1..] == "_next/image" + rest;
    JsString.ConcatStartsWith("_next/static", rest);
    JsString.ConcatStartsWith("_next/image", rest);
  }

  /** The favicon, and any path whose name differs from it only in the dot, skips the middleware. */
  lemma SkipsFaviconLike(c: char, rest: string)
    requires !JsString.IsLineTerminator(c)
    ensures !MatcherRuns("/favicon" + [c] + "ico" + rest)
  {
    var p := "/favicon" + [c] + "ico" + rest;
    assert p[1..][..7] == "favicon";
    assert p[1..][7] == c;
    assert p[1..][8..11] == "ico";
  }

  /** A file name followed by a text that has a static extension skips the middleware. */
  lemma ExtensionSkipped(name: string, ext: string)
    requires NoLineTerminator(name) && HasStaticExtension(ext)
    ensures !MatcherRuns("/" + name + ext)
  {
    var rest := name + ext;
    assert ("/" + name + ext)[1..] == rest;
    assert NoLineTerminator(rest) by {
      assert forall i :: |name| <= i < |rest| ==> rest[i] == ext[i - |name|];
    }
    JsString.EndsWithExtended(name, ext, ".svg");
    JsString.EndsWithExtended(name, ext, ".png");
    JsString.EndsWithExtended(name, ext, ".jpg");
    JsString.EndsWithExtended(name, ext, ".jpeg");
    JsString.EndsWithExtended(name, ext, ".gif");
    JsString.EndsWithExtended(name, ext, ".webp");
  }

  /** Each image extension of the pattern, alone, has a static extension. */
  lemma ImageExtension(ext: string)
    requires ext == ".svg" || ext == ".png" || ext == ".jpg" || ext == ".jpeg" || ext == ".gif" || ext == ".webp"
    ensures HasStaticExtension(ext)
  {
    assert ext[|ext| - |ext|..] == ext;
    assert NoLineTerminator(ext) by {
      assert forall i :: 0 <= i < |ext| ==> ext[i] == '.' || 'a' <= ext[i] <= 'z';
    }
  }

  /** An image file name skips the middleware, whatever directory it is in. */
  lemma SkipsImages(name: string)
    requires NoLineTerminator(name)
    ensures !MatcherRuns("/" + name + ".svg")
    ensures !MatcherRuns("/" + name + ".png")
    ensures !MatcherRuns("/" + name + ".jpg")
    ensures !MatcherRuns("/" + name + ".jpeg")
    ensures !MatcherRuns("/" + name + ".gif")
    ensures !MatcherRuns("/" + name + ".webp")
  {
    ImageExtension(".svg");
    ExtensionSkipped(name, ".svg");
    ImageExtension(".png");
    ExtensionSkipped(name, ".png");
    ImageExtension(".jpg");
    ExtensionSkipped(name, ".jpg");
    ImageExtension(".jpeg");
    ExtensionSkipped(name, ".jpeg");
    ImageExtension(".gif");
    ExtensionSkipped(name, ".gif");
    ImageExtension(".webp");
    ExtensionSkipped(name, ".webp");
  }

  /** So a signed-out visitor still receives image files, and is sent to the login page from any page. */
  lemma SignedOutVisitor(name: string)
    requires NoLineTerminator(name)
    ensures Route(false, "/" + name + ".png") == PassThrough
    ensures Route(false, "/shell") == RedirectTo(LoginPath)
  {
    ImageExtension(".png");
    ExtensionSkipped(name, ".png");
    RunsOnPages("/shell");
    assert !IsAuthPage("/shell") by {
      assert "/shell"[..6][1] == 's' && LoginPath[1] == 'l';
    }
  }

  // ------------------------------------------------------- cookie adapter

  /** Cookie attributes as the auth client passes them; they are kept as given. */
  type Options = map<string, string>

  /** A cookie the response will set: its value and attributes. */
  datatype Cookie = Cookie(value: string, options: Options)

  /**
   * The state the `cookies` callbacks close over: the request's cookies and
   * the cookies of the response currently held in `response`.
   */
  class CookieAdapter {
    var requestCookies: map<string, string>
    var responseCookies: map<string, Cookie>

    /** Every cookie the response sets is on the request too, with the same value. */
    ghost predicate Mirrored()
      reads this
    {
      forall name :: name in responseCookies ==>
        name in requestCookies && requestCookies[name] == responseCookies[name].value
    }

    /** `NextResponse.next(...)` for an incoming request. */
    constructor (incoming: map<string, string>)
      ensures Mirrored()
      ensures requestCookies == incoming && responseCookies == map[]
    {
      requestCookies := incoming;
      responseCookies := map[];
    }

    /** `get(name)` */
    function Get(name: string): (v: Option<string>)
      reads this
      ensures v.Some? <==> name in requestCookies
      ensures v.Some? ==> v.value == requestCookies[name]
    {
      if name in requestCookies then Some(requestCookies[name]) else None
    }

    /**
     * `set(name, value, options)` as written: the request gets the cookie,
     * and `response` is replaced by a fresh one that sets only this cookie.
     */
    method Set(name: string, value: string, options: Options)
      modifies this
      ensures requestCookies == old(requestCookies)[name := value]
      ensures responseCookies == map[name := Cookie(value, options)]
      ensures Mirrored()
    {
      requestCookies := requestCookies[name := value];
      responseCookies := map[name := Cookie(value, options)];
    }

    /** `remove(name, options)` as written: `set` with the empty value. */
    method Remove(name: string, options: Options)
      modifies this
      ensures requestCookies == old(requestCookies)[name := ""]
      ensures responseCookies == map[name := Cookie("", options)]
      ensures Mirrored()
    {
      requestCookies := requestCookies[name := ""];
      responseCookies := map[name := Cookie("", options)];
    }

    /** `set` as intended: the response keeps the cookies set before this one. */
    method SetKeeping(name: string, value: string, options: Options)
      requires Mirrored()
      modifies this
      ensures requestCookies == old(requestCookies)[name := value]
      ensures responseCookies == old(responseCookies)[name := Cookie(value, options)]
      ensures Mirrored()
    {
      requestCookies := requestCookies[name := value];
      responseCookies := responseCookies[name := Cookie(value, options)];
    }

    /** `remove` as intended. */
    method RemoveKeeping(name: string, options: Options)
      requires Mirrored()
      modifies this
      ensures requestCookies == old(requestCookies)[name := ""]
      ensures responseCookies == old(responseCookies)[name := Cookie("", options)]
      ensures Mirrored()
    {
      requestCookies := requestCookies[name := ""];
      responseCookies := responseCookies[name := Cookie("", options)];
    }
  }

  /**
   * A session refresh writes two cookies. Through the adapter as written the
   * response that is passed on no longer sets the first one, while the
   * request still carries both.
   */
  method AsWrittenDropsEarlierCookie() returns (onResponse: bool, onRequest: bool)
    ensures !onResponse && onRequest
  {
    var jar := new CookieAdapter(map[]);
    jar.Set("sb-access-token", "a", map[]);
    jar.Set("sb-refresh-token", "r", map[]);
    onResponse := "sb-access-token" in jar.responseCookies;
    onRequest := "sb-access-token" in jar.requestCookies;
  }

  /** With the corrected adapter both cookies reach the response, each with its value. */
  method KeepingKeepsEveryCookie() returns (onResponse: bool)
    ensures onResponse
  {
    var jar := new CookieAdapter(map[]);
    jar.SetKeeping("sb-access-token", "a", map[]);
    jar.SetKeeping("sb-refresh-token", "r", map[]);
    onResponse := "sb-access-token" in jar.responseCookies && jar.responseCookies["sb-access-token"].value == "a"
                  && "sb-refresh-token" in jar.responseCookies && jar.responseCookies["sb-refresh-token"].value == "r";
  }
}
