/**
  Cookies as the package's callers see them (Cookie) and as the DevTools
  protocol carries them: NetworkCookie, what a page reports, and
  CookieParam, what a page is told to set. The protocol records are
  reduced to the fields the package copies, plus the page cookie's size
  and session flag; their other fields (sameSite, priority, source scheme
  and port, partition key, url) are not modelled. Expiry is a Unix time in
  whole seconds, copied from one form to the other.
 */
module Cookies {

  datatype Cookie = Cookie(
    name: string, value: string, domain: string, path: string,
    expires: int, httpOnly: bool, secure: bool)

  /** A cookie as a page reports it: the simplified fields plus the modelled size and session flag. */
  datatype NetworkCookie = NetworkCookie(
    name: string, value: string, domain: string, path: string,
    expires: int, size: int, httpOnly: bool, secure: bool, session: bool)

  /** A cookie as a page is asked to set it: the seven fields WithCookies fills. */
  datatype CookieParam = CookieParam(
    name: string, value: string, domain: string, path: string,
    expires: int, httpOnly: bool, secure: bool)

  /** What reading a page's cookies gave: the cookies, or the page's error. */
  datatype Read = ReadOk(cookies: seq<NetworkCookie>) | ReadFailed(error: string)

  /** GetCookies' result: the simplified cookies, or the error it passes on. */
  datatype Outcome = Simplified(cookies: seq<Cookie>) | Failed(error: string)

  /**
    One page cookie reduced to the simplified form. Of the modelled fields,
    only size and session are dropped: setting the result again and storing
    it with the page cookie's own size and session flag gives the modelled
    page cookie back.
   */
  function Simplify(c: NetworkCookie): (r: Cookie)
    ensures Stored(ToParam(r), c.size, c.session) == c
  {
    Cookie(c.name, c.value, c.domain, c.path, c.expires, c.httpOnly, c.secure)
  }

  /** The conversion WithCookies applies to each cookie it sets. */
  function ToParam(k: Cookie): CookieParam
  {
    CookieParam(k.name, k.value, k.domain, k.path, k.expires, k.httpOnly, k.secure)
  }

  /** The cookie a page reports after setting p, with the size and session flag it chose. */
  function Stored(p: CookieParam, size: int, session: bool): NetworkCookie
  {
    NetworkCookie(p.name, p.value, p.domain, p.path, p.expires, size, p.httpOnly, p.secure, session)
  }

  /**
    The field maps of WithCookies and GetCookies invert each other: a cookie
    converted to a parameter, stored field for field by Stored and simplified
    again comes back unchanged, whatever size and session flag the page adds.
   */
  lemma SetThenGet(k: Cookie, size: int, session: bool)
    ensures Simplify(Stored(ToParam(k), size, session)) == k
  {
  }

  /** Distinct cookies are set as distinct parameters: the conversion loses nothing. */
  lemma ToParamInjective(k1: Cookie, k2: Cookie)
    ensures ToParam(k1) == ToParam(k2) <==> k1 == k2
  {
  }

  /** Two modelled page cookies simplify alike exactly when they agree on all but size and session. */
  lemma SimplifyForgets(c: NetworkCookie, d: NetworkCookie)
    ensures Simplify(c) == Simplify(d) <==>
      c.(size := 0, session := false) == d.(size := 0, session := false)
  {
  }

  /**
    GetCookies: a failed read is passed on as it is; otherwise each page
    cookie becomes the simplified cookie at the same position.
   */
  method GetCookies(read: Read) returns (r: Outcome)
    ensures read.ReadFailed? ==> r == Failed(read.error)
    ensures read.ReadOk? ==> r.Simplified? && |r.cookies| == |read.cookies|
    ensures read.ReadOk? ==>
      forall i :: 0 <= i < |read.cookies| ==> r.cookies[i] == Simplify(read.cookies[i])
  {
    if read.ReadFailed? {
      return Failed(read.error);
    }
    var cs := read.cookies;
    var simplified := new Cookie[|cs|];
    for i := 0 to |cs|
      invariant forall j :: 0 <= j < i ==> simplified[j] == Simplify(cs[j])
    {
      simplified[i] := Simplify(cs[i]);
    }
    r := Simplified(simplified[..]);
  }

  /** WithCookies' conversion: the parameter at each position is the converted cookie there. */
  method ConvertCookies(cookies: seq<Cookie>) returns (params: seq<CookieParam>)
    ensures |params| == |cookies|
    ensures forall i :: 0 <= i < |cookies| ==> params[i] == ToParam(cookies[i])
  {
    var converted := new CookieParam[|cookies|];
    for i := 0 to |cookies|
      invariant forall j :: 0 <= j < i ==> converted[j] == ToParam(cookies[j])
    {
      converted[i] := ToParam(cookies[i]);
    }
    params := converted[..];
  }
}
