/** The two request handlers of src/controller/url.controller.ts: registering
    a link under a fresh short code, and redirecting a short code to its link
    while counting the visit. */
module UrlController {
  import opened Wrappers
  import opened JsString
  import opened UrlSchema

  const CodeLength: nat := 6
  const BaseUrl := "http://localhost:5500/"
  const HttpPrefix := "http://"
  const HttpsPrefix := "https://"

  const StatusCreated := 201
  const StatusFound := 302
  const StatusBadRequest := 400
  const StatusNotFound := 404
  const StatusServerError := 500

  const InvalidLinkMessage := "PLease enter a valid url"
  const ShortenedMessage := "Url shortned successfully"
  const RegisterErrorMessage := "Internal Server error"
  const MissingCodeMessage := "Missing short code"
  const UnknownCodeMessage := "No URL found for this code"
  const RedirectErrorMessage := "Internal server error"

  /** The `data` object of a successful registration reply. */
  datatype ShortenedData = ShortenedData(shortnedUrl: string, clickCount: int)

  /** What a handler sends: a JSON reply whose body mirrors its status, or a
      redirect to a location. */
  datatype Response =
    | JsonReply(status: int, data: Option<ShortenedData>, message: string)
    | RedirectReply(status: int, location: string)

  /** Which database round trips of a redirect request fail. */
  datatype RedirectFaults = RedirectFaults(findFails: bool, saveFails: bool)

  /** JavaScript falsiness of a string-valued field that may be absent. */
  predicate IsFalsy(v: Option<string>) {
    v.None? || v.value == ""
  }

  // ---------------------------------------------------------------------
  // Short codes and shortened URLs

  /** A character of the URL-safe alphabet `A-Za-z0-9_-` the code generator draws from. */
  predicate IsUrlSafeChar(c: char) {
    ('A' <= c <= 'Z') || ('a' <= c <= 'z') || ('0' <= c <= '9') || c == '_' || c == '-'
  }

  /** What `nanoid(6)` returns: six URL-safe characters. */
  predicate IsShortCode(code: string) {
    |code| == CodeLength && forall k :: 0 <= k < |code| ==> IsUrlSafeChar(code[k])
  }

  /** The shortened URL reported for a code. */
  function ShortenedUrl(code: string): string {
    BaseUrl + code
  }

  /** The inverse of the shortened-URL format: the single, non-empty segment
      without `/` that follows the service's base address. Query strings,
      percent-decoding and trailing slashes, which the web framework's router
      also handles, are outside this format. */
  function CodeOfUrl(url: string): (c: Option<string>)
    ensures c.Some? ==> c.value != [] && url == BaseUrl + c.value
    ensures c.Some? ==> forall k :: 0 <= k < |c.value| ==> c.value[k] != '/'
  {
    if |BaseUrl| < |url| && url[..|BaseUrl|] == BaseUrl
       && forall k :: |BaseUrl| <= k < |url| ==> url[k] != '/'
    then Some(url[|BaseUrl|..])
    else None
  }

  /** Every non-empty segment without `/` after the base address is recovered
      by CodeOfUrl: the converse of CodeOfUrl's contract. */
  lemma {:induction false} CodeOfSegment(c: string)
    requires c != [] && forall k :: 0 <= k < |c| ==> c[k] != '/'
    ensures CodeOfUrl(BaseUrl + c) == Some(c)
  {
    var url := BaseUrl + c;
    assert url[..|BaseUrl|] == BaseUrl;
    assert url[|BaseUrl|..] == c;
    forall k | |BaseUrl| <= k < |url| ensures url[k] != '/' {
      assert url[k] == c[k - |BaseUrl|];
    }
  }

  /** The shortened URL of a generated code parses back to that very code. */
  lemma {:induction false} ShortenedUrlRoutesToCode(code: string)
    requires IsShortCode(code)
    ensures CodeOfUrl(ShortenedUrl(code)) == Some(code)
  {
    forall k | 0 <= k < |code| ensures code[k] != '/' {
      assert IsUrlSafeChar(code[k]);
    }
    CodeOfSegment(code);
  }

  // ---------------------------------------------------------------------
  // Link normalisation at redirect time

  /** The test `/^https?:\/\//i`: the link starts with `http://` or
      `https://`, ASCII letters compared without regard to case. */
  predicate HasScheme(s: string) {
    StartsWithIgnoringCase(s, HttpPrefix) || StartsWithIgnoringCase(s, HttpsPrefix)
  }

  /** The regular expression `/^https?:\/\//i` run as a matcher over `s`: the
      length of the match at the start of `s`, if there is one. The optional
      `s` is tried first; giving it up cannot help, since a `:` must then
      stand where the `s` is. */
  function SchemeMatch(s: string): (m: Option<nat>)
    ensures m.Some? ==> (m.value == 7 || m.value == 8) && m.value <= |s|
    ensures m.Some? ==> s[m.value - 3..m.value] == "://"
  {
    if |s| < 4 || AsciiLower(s[0]) != 'h' || AsciiLower(s[1]) != 't'
       || AsciiLower(s[2]) != 't' || AsciiLower(s[3]) != 'p'
    then None
    else
      var i := if 4 < |s| && AsciiLower(s[4]) == 's' then 5 else 4;
      if i + 3 <= |s| && s[i] == ':' && s[i + 1] == '/' && s[i + 2] == '/' then Some(i + 3) else None
  }

  /** A link that passes the prefix test is matched by the regular expression. */
  lemma {:induction false} HasSchemeMatches(s: string)
    requires HasScheme(s)
    ensures SchemeMatch(s).Some?
  {
    if StartsWithIgnoringCase(s, HttpsPrefix) {
      assert AsciiLower(s[0]) == 'h' && AsciiLower(s[1]) == 't' && AsciiLower(s[2]) == 't';
      assert AsciiLower(s[3]) == 'p' && AsciiLower(s[4]) == 's';
      assert AsciiLower(s[5]) == ':' && AsciiLower(s[6]) == '/' && AsciiLower(s[7]) == '/';
    } else {
      assert AsciiLower(s[0]) == 'h' && AsciiLower(s[1]) == 't' && AsciiLower(s[2]) == 't';
      assert AsciiLower(s[3]) == 'p' && AsciiLower(s[4]) == ':';
      assert AsciiLower(s[5]) == '/' && AsciiLower(s[6]) == '/';
    }
  }

  /** A match of the regular expression passes the prefix test. */
  lemma {:induction false} SchemeMatchHasScheme(s: string)
    requires SchemeMatch(s).Some?
    ensures HasScheme(s)
  {
    if SchemeMatch(s).value == 7 {
      assert StartsWithIgnoringCase(s, HttpPrefix) by {
        forall k | 0 <= k < 7 ensures AsciiLower(s[k]) == AsciiLower(HttpPrefix[k]) {
          if k >= 4 { assert s[4..7][k - 4] == s[k]; }
        }
      }
    } else {
      assert StartsWithIgnoringCase(s, HttpsPrefix) by {
        forall k | 0 <= k < 8 ensures AsciiLower(s[k]) == AsciiLower(HttpsPrefix[k]) {
          if k >= 5 { assert s[5..8][k - 5] == s[k]; }
        }
      }
    }
  }

  /** The regular expression matches exactly when the prefix test holds. */
  lemma {:induction false} SchemeMatchIffHasScheme(s: string)
    ensures SchemeMatch(s).Some? <==> HasScheme(s)
  {
    if SchemeMatch(s).Some? {
      SchemeMatchHasScheme(s);
    }
    if HasScheme(s) {
      HasSchemeMatches(s);
    }
  }

  /** Putting `https://` in front of a trimmed string gives a trimmed string
      with a scheme that ends in the original. */
  lemma {:induction false} HttpsPrefixed(t: string)
    requires IsTrimmed(t)
    ensures HasScheme(HttpsPrefix + t) && IsTrimmed(HttpsPrefix + t)
    ensures (HttpsPrefix + t)[|HttpsPrefix|..] == t
  {
    var r := HttpsPrefix + t;
    assert StartsWithIgnoringCase(r, HttpsPrefix) by {
      forall k | 0 <= k < |HttpsPrefix| ensures r[k] == HttpsPrefix[k] { }
    }
    assert r[|r| - 1] == if t == [] then '/' else t[|t| - 1];
  }

  /** The link a redirect goes to: the stored link trimmed, with `https://`
      put in front unless it already names the http or https scheme. A link
      without such a scheme never comes back unchanged. */
  function NormalizeLink(link: string): (r: string)
    ensures HasScheme(r) && IsTrimmed(r)
    ensures r == Trim(link) <==> HasScheme(Trim(link))
  {
    var t := Trim(link);
    if HasScheme(t) then t
    else
      HttpsPrefixed(t);
      HttpsPrefix + t
  }

  /** Normalising keeps the trimmed link whole, as the end of the result, and
      puts at most `https://` in front of it. */
  lemma {:induction false} NormalizeLinkKeepsLink(link: string)
    ensures var r, t := NormalizeLink(link), Trim(link);
      && |t| <= |r| && r[|r| - |t|..] == t
      && (r[..|r| - |t|] == [] || r[..|r| - |t|] == HttpsPrefix)
  {
    var r, t := NormalizeLink(link), Trim(link);
    if !HasScheme(t) {
      assert r == HttpsPrefix + t;
      assert r[..|HttpsPrefix|] == HttpsPrefix;
    }
  }

  /** A normalised link is left as it is by a second normalisation. */
  lemma {:induction false} NormalizeLinkIdempotent(link: string)
    ensures NormalizeLink(NormalizeLink(link)) == NormalizeLink(link)
  {
    TrimOfTrimmed(NormalizeLink(link));
  }

  /** A link stored by the schema is already trimmed, so the redirect keeps it
      whole, adding `https://` exactly when it names no http(s) scheme. */
  lemma {:induction false} NormalizeStoredLink(r: Record)
    requires WellFormed(r)
    ensures HasScheme(r.original_link) ==> NormalizeLink(r.original_link) == r.original_link
    ensures !HasScheme(r.original_link) ==> NormalizeLink(r.original_link) == HttpsPrefix + r.original_link
  {
    TrimOfTrimmed(r.original_link);
  }

  // ---------------------------------------------------------------------
  // Handlers

  /** A registration stores a record exactly when the link is truthy, is not
      all whitespace, the store answers and the generated code is free. */
  ghost predicate RegisterSucceeds(records: map<string, Record>, link: Option<string>,
                                   code: string, unreachable: bool) {
    !IsFalsy(link) && Trim(link.value) != [] && !unreachable && code !in records
  }

  /** `urlRegister`: `link` is the request body's field, `code` the value
      `nanoid(6)` returned, `unreachable` whether the insert's round trip fails. */
  method UrlRegister(store: UrlStore, link: Option<string>, code: string, unreachable: bool)
    returns (res: Response)
    requires store.Valid()
    requires IsShortCode(code)
    modifies store
    ensures store.Valid() && Evolves(old(store.records), store.records)
    ensures IsFalsy(link) ==>
      && res == JsonReply(StatusNotFound, None, InvalidLinkMessage)
      && store.records == old(store.records) && store.log == old(store.log)
    ensures !IsFalsy(link) ==> store.log == old(store.log) + [CreateOp(code)]
    ensures RegisterSucceeds(old(store.records), link, code, unreachable) ==>
      && res == JsonReply(StatusCreated, Some(ShortenedData(ShortenedUrl(code), 0)), ShortenedMessage)
      && store.records == old(store.records)[code := Record(Trim(link.value), code, 0)]
    ensures !IsFalsy(link) && !RegisterSucceeds(old(store.records), link, code, unreachable) ==>
      && res == JsonReply(StatusServerError, None, RegisterErrorMessage)
      && store.records == old(store.records)
  {
    if IsFalsy(link) {
      return JsonReply(StatusNotFound, None, InvalidLinkMessage);
    }
    var created := store.Create(link.value, code, None, unreachable);
    if created.Failure? {
      return JsonReply(StatusServerError, None, RegisterErrorMessage);
    }
    var url := created.value;
    res := JsonReply(StatusCreated, Some(ShortenedData(ShortenedUrl(url.short_code), url.click_count)),
                     ShortenedMessage);
  }

  /** `redirect`: `code` is the path parameter, `faults` says which of the
      lookup and the save fail. */
  method Redirect(store: UrlStore, code: Option<string>, faults: RedirectFaults)
    returns (res: Response)
    requires store.Valid()
    modifies store
    ensures store.Valid() && Evolves(old(store.records), store.records)
    ensures res.status == StatusFound <==> res.RedirectReply?
    ensures res.RedirectReply? ==> HasScheme(res.location)
    ensures IsFalsy(code) ==>
      && res == JsonReply(StatusBadRequest, None, MissingCodeMessage)
      && store.records == old(store.records) && store.log == old(store.log)
    ensures !IsFalsy(code) && faults.findFails ==>
      && res == JsonReply(StatusServerError, None, RedirectErrorMessage)
      && store.records == old(store.records) && store.log == old(store.log) + [FindOp(code.value)]
    ensures !IsFalsy(code) && !faults.findFails && code.value !in old(store.records) ==>
      && res == JsonReply(StatusNotFound, None, UnknownCodeMessage)
      && store.records == old(store.records) && store.log == old(store.log) + [FindOp(code.value)]
    ensures !IsFalsy(code) && !faults.findFails && code.value in old(store.records) ==>
      store.log == old(store.log) + [FindOp(code.value), SaveOp(code.value)]
    ensures !IsFalsy(code) && !faults.findFails && code.value in old(store.records) && faults.saveFails ==>
      && res == JsonReply(StatusServerError, None, RedirectErrorMessage)
      && store.records == old(store.records)
    ensures !IsFalsy(code) && !faults.findFails && code.value in old(store.records) && !faults.saveFails ==>
      && res == RedirectReply(StatusFound, NormalizeLink(old(store.records)[code.value].original_link))
      && var before := old(store.records)[code.value];
         store.records == old(store.records)[code.value := before.(click_count := before.click_count + 1)]
  {
    if IsFalsy(code) {
      return JsonReply(StatusBadRequest, None, MissingCodeMessage);
    }
    var found := store.FindOne(code.value, faults.findFails);
    if found.Failure? {
      return JsonReply(StatusServerError, None, RedirectErrorMessage);
    }
    if found.value.None? {
      return JsonReply(StatusNotFound, None, UnknownCodeMessage);
    }
    var url := found.value.value;
    url := url.(click_count := url.click_count + 1);
    var saved := store.Save(url, faults.saveFails);
    if saved.Failure? {
      return JsonReply(StatusServerError, None, RedirectErrorMessage);
    }
    var link := Trim(url.original_link);
    if !HasScheme(link) {
      link := HttpsPrefix + link;
    }
    assert link == NormalizeLink(url.original_link);
    res := RedirectReply(StatusFound, link);
  }
}
