/** The route guard (src/proxy.ts): signed-in visitors are sent away from the login and
    sign-up pages, signed-out visitors away from the protected areas. Only the path and the
    query parameters of a URL take part. */
module Proxy {
  import opened Wrappers
  import opened Seqs

  /** A URL's path and its query parameters, in order, as (name, value) pairs. */
  datatype Url = Url(pathname: string, params: seq<(string, string)>)

  const RedirectKey := "redirect"
  const DefaultLanding := "/learn"
  const LoginPage := "/login"

  predicate NeedsAuth(path: string)
  {
    "/admin" <= path || "/teach" <= path || "/learn" <= path || "/settings" <= path || "/checkout" <= path
  }

  predicate NeedsUnauth(path: string)
  {
    "/login" <= path || "/signup" <= path
  }

  /** No path is both protected and reserved for signed-out visitors. */
  lemma GuardsDisjoint(path: string)
    ensures !(NeedsAuth(path) && NeedsUnauth(path))
  {
    if "/login" <= path {
      assert path[1] == 'l' && path[2] == 'o';
      assert !("/learn" <= path) by { assert "/learn"[2] == 'e'; }
    } else if "/signup" <= path {
      assert path[1] == 's' && path[2] == 'i';
      assert !("/settings" <= path) by { assert "/settings"[2] == 'e'; }
    }
  }

  /** `searchParams.get(key)`: the value of the first pair with that name. */
  function GetParam(params: seq<(string, string)>, key: string): (r: Option<string>)
    ensures r.None? <==> forall i :: 0 <= i < |params| ==> params[i].0 != key
    ensures r.Some? ==> exists i :: 0 <= i < |params| && params[i] == (key, r.value)
    ensures r.Some? ==> exists i :: 0 <= i < |params| && params[i] == (key, r.value) &&
                                    forall j :: 0 <= j < i ==> params[j].0 != key
    decreases |params|
  {
    if params == [] then None
    else if params[0].0 == key then Some(params[0].1)
    else
      var rest := GetParam(params[1..], key);
      assert forall i :: 1 <= i < |params| ==> params[i] == params[1..][i - 1];
      rest
  }

  /** `searchParams.delete(key)`: every pair with that name removed, the others kept in order. */
  function DeleteParam(params: seq<(string, string)>, key: string): (r: seq<(string, string)>)
    ensures forall p :: p in r <==> p in params && p.0 != key
    ensures (forall i :: 0 <= i < |params| ==> params[i].0 != key) ==> r == params
    ensures IsFilter(r, params, (p: (string, string)) => p.0 != key)
    decreases |params|
  {
    if params == [] then
      FilterEmpty<(string, string)>((p: (string, string)) => p.0 != key);
      []
    else
      var rest := DeleteParam(params[1..], key);
      FilterCons(params[0], params[1..], rest, (p: (string, string)) => p.0 != key);
      assert [params[0]] + params[1..] == params;
      if params[0].0 == key then rest else [params[0]] + rest
  }

  /** The copy of the request URL the guard edits before redirecting to it. */
  class UrlBuffer {
    var pathname: string
    var params: seq<(string, string)>

    function Value(): Url
      reads this
    {
      Url(pathname, params)
    }

    /** `nextUrl.clone()`. */
    constructor Clone(u: Url)
      ensures Value() == u
    {
      pathname, params := u.pathname, u.params;
    }

    method SetPathname(p: string)
      modifies this
      ensures pathname == p && params == old(params)
    {
      pathname := p;
    }

    method Delete(key: string)
      modifies this
      ensures pathname == old(pathname) && params == DeleteParam(old(params), key)
    {
      params := DeleteParam(params, key);
    }

    method Append(key: string, value: string)
      modifies this
      ensures pathname == old(pathname) && params == old(params) + [(key, value)]
    {
      params := params + [(key, value)];
    }
  }

  /** Where a signed-in visitor on a login or sign-up page is sent: the `redirect` parameter,
      or the learning area when it is missing or empty. */
  function LandingTarget(params: seq<(string, string)>): (r: string)
    ensures r != ""
    ensures GetParam(params, RedirectKey).Some? && GetParam(params, RedirectKey).value != "" ==>
              r == GetParam(params, RedirectKey).value
    ensures GetParam(params, RedirectKey).None? || GetParam(params, RedirectKey).value == "" ==>
              r == DefaultLanding
  {
    match GetParam(params, RedirectKey)
    case Some(t) => if t != "" then t else DefaultLanding
    case None => DefaultLanding
  }

  /** The guard's decision: the redirect target, if any. Only the two guarded cases redirect. */
  function Decide(hasSession: bool, u: Url): (r: Option<Url>)
    ensures r.Some? <==> (hasSession && NeedsUnauth(u.pathname)) || (!hasSession && NeedsAuth(u.pathname))
    ensures hasSession && NeedsUnauth(u.pathname) ==>
              r == Some(Url(LandingTarget(u.params), DeleteParam(u.params, RedirectKey)))
    ensures !hasSession && NeedsAuth(u.pathname) ==>
              r == Some(Url(LoginPage, u.params + [(RedirectKey, u.pathname)]))
  {
    if hasSession && NeedsUnauth(u.pathname) then
      Some(Url(LandingTarget(u.params), DeleteParam(u.params, RedirectKey)))
    else if !hasSession && NeedsAuth(u.pathname) then
      Some(Url(LoginPage, u.params + [(RedirectKey, u.pathname)]))
    else None
  }

  /** `proxy`: `hasSession` says whether the request carries a session cookie. */
  method Guard(hasSession: bool, nextUrl: Url) returns (redirect: Option<Url>)
    ensures redirect == Decide(hasSession, nextUrl)
  {
    if hasSession && NeedsUnauth(nextUrl.pathname) {
      var target := LandingTarget(nextUrl.params);
      var absUrl := new UrlBuffer.Clone(nextUrl);
      absUrl.SetPathname(target);
      absUrl.Delete(RedirectKey);
      return Some(absUrl.Value());
    }
    if !hasSession && NeedsAuth(nextUrl.pathname) {
      var absUrl := new UrlBuffer.Clone(nextUrl);
      absUrl.SetPathname(LoginPage);
      absUrl.Append(RedirectKey, nextUrl.pathname);
      return Some(absUrl.Value());
    }
    return None;
  }

  /** A signed-out visitor sent from a protected page to the login page, once signed in, is
      sent back to the page and the query it started from, when that query had no `redirect`
      parameter of its own. */
  lemma LoginRoundTrip(u: Url)
    requires NeedsAuth(u.pathname)
    requires GetParam(u.params, RedirectKey).None?
    ensures Decide(false, u).Some?
    ensures Decide(true, Decide(false, u).value) == Some(u)
  {
    var v := Decide(false, u).value;
    assert "/login" <= v.pathname;
    assert u.pathname != "" by { assert u.pathname[0] == '/'; }
    assert GetParam(v.params, RedirectKey) == Some(u.pathname) by {
      assert v.params == u.params + [(RedirectKey, u.pathname)];
      GetParamAppend(u.params, RedirectKey, u.pathname);
    }
    DeleteParamAppend(u.params, RedirectKey, u.pathname);
  }

  lemma {:induction false} GetParamAppend(params: seq<(string, string)>, key: string, value: string)
    requires GetParam(params, key).None?
    ensures GetParam(params + [(key, value)], key) == Some(value)
    decreases |params|
  {
    if params != [] {
      assert (params + [(key, value)])[1..] == params[1..] + [(key, value)];
      GetParamAppend(params[1..], key, value);
    }
  }

  lemma {:induction false} DeleteParamAppend(params: seq<(string, string)>, key: string, value: string)
    requires GetParam(params, key).None?
    ensures DeleteParam(params + [(key, value)], key) == params
    decreases |params|
  {
    if params == [] {
      assert DeleteParam([(key, value)], key) == DeleteParam([], key);
    } else {
      assert (params + [(key, value)])[1..] == params[1..] + [(key, value)];
      DeleteParamAppend(params[1..], key, value);
    }
  }
}
