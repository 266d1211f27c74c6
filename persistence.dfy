/**
 * The message store behind `_save`: a list of six-field records with the
 * existence check on (domain, locale, singular) followed by an insert.
 */
module Persistence {
  import opened Wrappers

  /** One stored message; plural, context and refs may be null. */
  datatype Record = Record(
    domain: string, locale: string, singular: string,
    plural: Option<string>, context: Option<string>, refs: Option<string>)

  /** The condition of `find()->where(compact('domain', 'locale', 'singular'))`: context plays no part. */
  predicate Matches(r: Record, domain: string, locale: string, singular: string) {
    r.domain == domain && r.locale == locale && r.singular == singular
  }

  predicate HasKey(records: seq<Record>, domain: string, locale: string, singular: string) {
    exists i :: 0 <= i < |records| && Matches(records[i], domain, locale, singular)
  }

  /** The number of stored records matching the condition. */
  function CountKey(records: seq<Record>, domain: string, locale: string, singular: string): (n: nat)
    ensures n <= |records|
    ensures n > 0 <==> HasKey(records, domain, locale, singular)
  {
    if records == [] then 0
    else
      var prefix := records[..|records| - 1];
      var n := CountKey(prefix, domain, locale, singular);
      assert forall i :: 0 <= i < |prefix| ==> prefix[i] == records[i];
      assert HasKey(prefix, domain, locale, singular) ==> HasKey(records, domain, locale, singular);
      n + (if Matches(records[|records| - 1], domain, locale, singular) then 1 else 0)
  }

  /** The table: records are only ever appended. */
  class Store {
    var records: seq<Record>

    constructor ()
      ensures records == []
    {
      records := [];
    }

    /** `find()->where(...)->count()`. */
    function Count(domain: string, locale: string, singular: string): (n: nat)
      reads this
      ensures n > 0 <==> HasKey(records, domain, locale, singular)
    {
      CountKey(records, domain, locale, singular)
    }

    /** `save(newEntity(...))`. */
    method Insert(r: Record)
      modifies this
      ensures records == old(records) + [r]
    {
      records := records + [r];
    }
  }

  /** The arguments of one `_save` call. */
  datatype SaveRequest = SaveRequest(
    domain: string, singular: string, plural: Option<string>, context: Option<string>, refs: Option<string>)

  function RecordFor(req: SaveRequest, locale: string): Record {
    Record(req.domain, locale, req.singular, req.plural, req.context, req.refs)
  }

  /** `_save` for each locale in turn: insert only when no record has the same domain, locale and singular. */
  function SaveOne(records: seq<Record>, locales: seq<string>, req: SaveRequest): seq<Record> {
    if locales == [] then records
    else
      var before := SaveOne(records, locales[..|locales| - 1], req);
      var locale := locales[|locales| - 1];
      if HasKey(before, req.domain, locale, req.singular) then before else before + [RecordFor(req, locale)]
  }

  /** A sequence of `_save` calls. */
  function SaveAll(records: seq<Record>, locales: seq<string>, reqs: seq<SaveRequest>): seq<Record> {
    if reqs == [] then records
    else SaveOne(SaveAll(records, locales, reqs[..|reqs| - 1]), locales, reqs[|reqs| - 1])
  }

  lemma SaveAllSnoc(records: seq<Record>, locales: seq<string>, reqs: seq<SaveRequest>, req: SaveRequest)
    ensures SaveAll(records, locales, reqs + [req]) == SaveOne(SaveAll(records, locales, reqs), locales, req)
  {
    assert (reqs + [req])[..|reqs|] == reqs;
  }

  lemma {:induction false} SaveAllAppend(records: seq<Record>, locales: seq<string>, reqs: seq<SaveRequest>, more: seq<SaveRequest>)
    ensures SaveAll(records, locales, reqs + more) == SaveAll(SaveAll(records, locales, reqs), locales, more)
    decreases |more|
  {
    if more != [] {
      var init := more[..|more| - 1];
      SaveAllAppend(records, locales, reqs, init);
      assert (reqs + more)[..|reqs + more| - 1] == reqs + init;
    }
    else {
      assert reqs + more == reqs;
    }
  }

  lemma HasKeyGrows(records: seq<Record>, more: seq<Record>, domain: string, locale: string, singular: string)
    requires records <= more
    requires HasKey(records, domain, locale, singular)
    ensures HasKey(more, domain, locale, singular)
  {
    var i :| 0 <= i < |records| && Matches(records[i], domain, locale, singular);
    assert more[i] == records[i];
  }

  /**
   * Saving keeps every existing record in place, only adds records for the
   * request in its locales, and afterwards every locale has a matching record.
   */
  lemma {:induction false} SaveOneEffect(records: seq<Record>, locales: seq<string>, req: SaveRequest)
    ensures var after := SaveOne(records, locales, req);
      && records <= after
      && (forall i :: |records| <= i < |after| ==> exists l :: l in locales && after[i] == RecordFor(req, l))
      && (forall l :: l in locales ==> HasKey(after, req.domain, l, req.singular))
  {
    if locales != [] {
      var init := locales[..|locales| - 1];
      var locale := locales[|locales| - 1];
      SaveOneEffect(records, init, req);
      var before := SaveOne(records, init, req);
      var after := SaveOne(records, locales, req);
      assert before <= after;
      forall l | l in locales ensures HasKey(after, req.domain, l, req.singular) {
        if l in init {
          HasKeyGrows(before, after, req.domain, l, req.singular);
        } else {
          assert l == locale;
          if !HasKey(before, req.domain, locale, req.singular) {
            assert Matches(after[|before|], req.domain, l, req.singular);
          }
        }
      }
      forall i | |records| <= i < |after| ensures exists l :: l in locales && after[i] == RecordFor(req, l) {
        if i < |before| {
          var l :| l in init && before[i] == RecordFor(req, l);
          assert l in locales;
        } else {
          assert after[i] == RecordFor(req, locale);
        }
      }
    }
  }

  /** A request whose key exists in every locale inserts nothing. */
  lemma {:induction false} SaveOneNoop(records: seq<Record>, locales: seq<string>, req: SaveRequest)
    requires forall l :: l in locales ==> HasKey(records, req.domain, l, req.singular)
    ensures SaveOne(records, locales, req) == records
  {
    if locales != [] {
      SaveOneNoop(records, locales[..|locales| - 1], req);
    }
  }

  /** Saving the same message twice inserts nothing the second time. */
  lemma SaveOneIdempotent(records: seq<Record>, locales: seq<string>, req: SaveRequest)
    ensures SaveOne(SaveOne(records, locales, req), locales, req) == SaveOne(records, locales, req)
  {
    SaveOneEffect(records, locales, req);
    SaveOneNoop(SaveOne(records, locales, req), locales, req);
  }

  /**
   * The existence check ignores context (and plural and refs): once a message
   * is saved, the same singular in the same domain with any other context is
   * not inserted.
   */
  lemma ContextIgnored(records: seq<Record>, locales: seq<string>, req: SaveRequest, other: SaveRequest)
    requires other.domain == req.domain && other.singular == req.singular
    ensures SaveOne(SaveOne(records, locales, req), locales, other) == SaveOne(records, locales, req)
  {
    SaveOneEffect(records, locales, req);
    SaveOneNoop(SaveOne(records, locales, req), locales, other);
  }

  /** At most one record per (domain, locale, singular). */
  predicate UniqueKeys(records: seq<Record>) {
    forall i, j :: 0 <= i < j < |records| ==>
      !Matches(records[j], records[i].domain, records[i].locale, records[i].singular)
  }

  /** Saving keeps the store free of duplicate keys. */
  lemma {:induction false} SaveOneKeepsKeysUnique(records: seq<Record>, locales: seq<string>, req: SaveRequest)
    requires UniqueKeys(records)
    ensures UniqueKeys(SaveOne(records, locales, req))
  {
    if locales != [] {
      var init := locales[..|locales| - 1];
      var locale := locales[|locales| - 1];
      SaveOneKeepsKeysUnique(records, init, req);
      var before := SaveOne(records, init, req);
      if !HasKey(before, req.domain, locale, req.singular) {
        var after := before + [RecordFor(req, locale)];
        forall i, j | 0 <= i < j < |after|
          ensures !Matches(after[j], after[i].domain, after[i].locale, after[i].singular)
        {
          if j == |before| {
            assert !Matches(before[i], req.domain, locale, req.singular);
          }
        }
      }
    }
  }

  /** A run of saves never changes or removes an existing record. */
  lemma {:induction false} SaveAllExtends(records: seq<Record>, locales: seq<string>, reqs: seq<SaveRequest>)
    ensures records <= SaveAll(records, locales, reqs)
    ensures forall q, l :: q in reqs && l in locales ==> HasKey(SaveAll(records, locales, reqs), q.domain, l, q.singular)
  {
    if reqs != [] {
      var init := reqs[..|reqs| - 1];
      var last := reqs[|reqs| - 1];
      SaveAllExtends(records, locales, init);
      var before := SaveAll(records, locales, init);
      SaveOneEffect(before, locales, last);
      var after := SaveAll(records, locales, reqs);
      forall q, l | q in reqs && l in locales ensures HasKey(after, q.domain, l, q.singular) {
        if q in init {
          HasKeyGrows(before, after, q.domain, l, q.singular);
        }
      }
    }
  }

  lemma {:induction false} SaveAllNoop(records: seq<Record>, locales: seq<string>, reqs: seq<SaveRequest>)
    requires forall q, l :: q in reqs && l in locales ==> HasKey(records, q.domain, l, q.singular)
    ensures SaveAll(records, locales, reqs) == records
  {
    if reqs != [] {
      SaveAllNoop(records, locales, reqs[..|reqs| - 1]);
      SaveOneNoop(records, locales, reqs[|reqs| - 1]);
    }
  }

  /** Running the whole save twice against the same store inserts nothing the second time. */
  lemma SaveAllIdempotent(records: seq<Record>, locales: seq<string>, reqs: seq<SaveRequest>)
    ensures SaveAll(SaveAll(records, locales, reqs), locales, reqs) == SaveAll(records, locales, reqs)
  {
    SaveAllExtends(records, locales, reqs);
    SaveAllNoop(SaveAll(records, locales, reqs), locales, reqs);
  }
}
