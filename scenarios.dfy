/** Clients of the two handlers: what a caller can conclude from their
    contracts alone about short sessions against an empty store. */
module Scenarios {
  import opened Wrappers
  import opened JsString
  import opened UrlSchema
  import opened UrlController

  /** Register a link that names no scheme and follow the short link twice:
      both visits go to the https form of the link and are both counted. */
  method ExampleVisits(link: string, code: string)
    requires link != [] && IsTrimmed(link) && !HasScheme(link)
    requires IsShortCode(code)
  {
    var store := new UrlStore();
    TrimOfTrimmed(link);

    var r := UrlRegister(store, Some(link), code, false);
    assert r.status == StatusCreated;
    assert r.data == Some(ShortenedData(ShortenedUrl(code), 0));
    assert store.records == map[code := Record(link, code, 0)];

    NormalizeStoredLink(Record(link, code, 0));
    var v1 := Redirect(store, Some(code), RedirectFaults(false, false));
    assert v1 == RedirectReply(StatusFound, HttpsPrefix + link);
    assert code in store.records && store.records[code] == Record(link, code, 1);
    var v2 := Redirect(store, Some(code), RedirectFaults(false, false));
    assert v2 == RedirectReply(StatusFound, HttpsPrefix + link);
    assert store.records[code].click_count == 2;
  }

  /** Registration is not idempotent: the same link registered twice makes
      two records. */
  method ExampleSameLinkTwice(link: string, code1: string, code2: string)
    requires Trim(link) != []
    requires IsShortCode(code1) && IsShortCode(code2) && code1 != code2
  {
    var store := new UrlStore();
    var r1 := UrlRegister(store, Some(link), code1, false);
    var r2 := UrlRegister(store, Some(link), code2, false);
    assert r2.status == StatusCreated && code1 in store.records && code2 in store.records;
    assert store.records[code1].original_link == store.records[code2].original_link;
  }

  /** A generated code that is already taken fails the request and is not
      retried with another code. */
  method ExampleCodeTaken(link: string, other: string, code: string)
    requires Trim(link) != [] && Trim(other) != []
    requires IsShortCode(code)
  {
    var store := new UrlStore();
    var r1 := UrlRegister(store, Some(link), code, false);
    ghost var before := store.records;
    ghost var log := store.log;
    var r2 := UrlRegister(store, Some(other), code, false);
    assert r2 == JsonReply(StatusServerError, None, RegisterErrorMessage);
    assert store.records == before && store.log == log + [CreateOp(code)];
  }

  /** The rejected requests: a blank or whitespace-only link, an empty or
      unknown code. */
  method ExampleRejections()
  {
    var store := new UrlStore();
    assert IsShortCode("qwerty");

    var r1 := UrlRegister(store, Some(""), "qwerty", false);
    assert r1.status == StatusNotFound;
    // A link of whitespace alone is truthy but fails the required validator.
    var r2 := UrlRegister(store, Some("   "), "qwerty", false);
    assert Trim("   ") == [];
    assert r2.status == StatusServerError && store.records == map[];

    var v1 := Redirect(store, Some("nosuch"), RedirectFaults(false, false));
    assert v1.status == StatusNotFound;
    var v2 := Redirect(store, Some(""), RedirectFaults(false, false));
    assert v2.status == StatusBadRequest && store.log == [CreateOp("qwerty"), FindOp("nosuch")];
  }
}
