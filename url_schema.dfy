/** The link record and the collection that holds it (src/models/urlSchema.ts):
    a record shape with a defaulted counter, a unique short code and a
    required, trimmed target link, kept in a table keyed by short code. */
module UrlSchema {
  import opened Wrappers
  import opened JsString

  /** One stored link. The store's automatic timestamps are not modelled. */
  datatype Record = Record(original_link: string, short_code: string, click_count: int)

  /** Why a store operation failed. */
  datatype StoreError =
    | ValidationError    // a required field is empty once its setters ran
    | DuplicateKey       // the unique index on short_code already holds the code
    | DocumentNotFound   // a save found no stored record to overwrite
    | Unavailable        // the database round trip itself failed

  /** The store operations a request performs, in the order it performs them. */
  datatype StoreOp = CreateOp(code: string) | FindOp(code: string) | SaveOp(code: string)

  /** The schema's validation: both required strings are present (non-empty)
      and the link is stored as its `trim` setter leaves it. */
  predicate WellFormed(r: Record) {
    r.original_link != [] && r.short_code != [] && IsTrimmed(r.original_link)
  }

  /** The document that construction from the given fields yields: the link
      passes through the `trim` setter, an absent count takes its default 0. */
  function NewDocument(link: string, code: string, count: Option<int>): (d: Record)
    ensures d.original_link == Trim(link) && IsTrimmed(d.original_link)
    ensures d.short_code == code
    ensures count.None? ==> d.click_count == 0
    ensures count.Some? ==> d.click_count == count.value
  {
    var clicks := match count case Some(n) => n case None => 0;
    Record(Trim(link), code, clicks)
  }

  /** The life-cycle rule for stored records: none disappears, none changes
      its link or code, and no count goes down. */
  ghost predicate Evolves(before: map<string, Record>, after: map<string, Record>) {
    forall c :: c in before ==>
      && c in after
      && after[c].original_link == before[c].original_link
      && after[c].short_code == before[c].short_code
      && after[c].click_count >= before[c].click_count
  }

  /** The life-cycle rule holds across any sequence of requests that each keep it. */
  lemma {:induction false} EvolvesTransitive(a: map<string, Record>, b: map<string, Record>, c: map<string, Record>)
    requires Evolves(a, b) && Evolves(b, c)
    ensures Evolves(a, c)
  {
  }

  /** The `Url` collection as an in-memory table keyed by short code. */
  class UrlStore {
    var records: map<string, Record>
    /** The store operations performed so far. */
    ghost var log: seq<StoreOp>

    /** Every record sits under its own code and passed validation; the map's
        keys make the codes unique. */
    ghost predicate Valid()
      reads this
    {
      forall c :: c in records ==> records[c].short_code == c && WellFormed(records[c])
    }

    constructor ()
      ensures Valid() && records == map[] && log == []
    {
      records := map[];
      log := [];
    }

    /** `Url.create`: build the document, validate it, then insert it unless
        its code is already taken. */
    method Create(link: string, code: string, count: Option<int>, unreachable: bool)
      returns (r: Result<Record, StoreError>)
      requires Valid()
      modifies this
      ensures Valid()
      ensures log == old(log) + [CreateOp(code)]
      ensures var d := NewDocument(link, code, count);
        && (!WellFormed(d) ==> r == Failure(ValidationError))
        && (WellFormed(d) && unreachable ==> r == Failure(Unavailable))
        && (WellFormed(d) && !unreachable && code in old(records) ==> r == Failure(DuplicateKey))
        && (WellFormed(d) && !unreachable && code !in old(records) ==>
              r == Success(d) && records == old(records)[code := d])
      ensures r.Failure? ==> records == old(records)
    {
      log := log + [CreateOp(code)];
      var d := NewDocument(link, code, count);
      if !WellFormed(d) {
        return Failure(ValidationError);
      }
      if unreachable {
        return Failure(Unavailable);
      }
      if code in records {
        return Failure(DuplicateKey);
      }
      records := records[code := d];
      r := Success(d);
    }

    /** `Url.findOne({ short_code: code })`: exact-match lookup. */
    method FindOne(code: string, unreachable: bool) returns (r: Result<Option<Record>, StoreError>)
      requires Valid()
      modifies this`log
      ensures log == old(log) + [FindOp(code)]
      ensures unreachable ==> r == Failure(Unavailable)
      ensures !unreachable && code !in records ==> r == Success(None)
      ensures !unreachable && code in records ==> r == Success(Some(records[code]))
      ensures r.Success? && r.value.Some? ==> r.value.value.short_code == code && WellFormed(r.value.value)
    {
      log := log + [FindOp(code)];
      if unreachable {
        return Failure(Unavailable);
      }
      if code in records {
        r := Success(Some(records[code]));
      } else {
        r := Success(None);
      }
    }

    /** `doc.save()` on a document fetched earlier: validate it, then write it
        back over the stored record with the same code. */
    method Save(doc: Record, unreachable: bool) returns (r: Result<Record, StoreError>)
      requires Valid()
      modifies this
      ensures Valid()
      ensures log == old(log) + [SaveOp(doc.short_code)]
      ensures !WellFormed(doc) ==> r == Failure(ValidationError)
      ensures WellFormed(doc) && unreachable ==> r == Failure(Unavailable)
      ensures WellFormed(doc) && !unreachable && doc.short_code !in old(records) ==>
        r == Failure(DocumentNotFound)
      ensures WellFormed(doc) && !unreachable && doc.short_code in old(records) ==>
        r == Success(doc) && records == old(records)[doc.short_code := doc]
      ensures r.Failure? ==> records == old(records)
    {
      log := log + [SaveOp(doc.short_code)];
      if !WellFormed(doc) {
        return Failure(ValidationError);
      }
      if unreachable {
        return Failure(Unavailable);
      }
      if doc.short_code !in records {
        return Failure(DocumentNotFound);
      }
      records := records[doc.short_code := doc];
      r := Success(doc);
    }
  }
}
