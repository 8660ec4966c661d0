/**
 * The URL registry behind the two routes of the shortener:
 *
 *   POST /api/shorturl          submit a URL, get its short_url
 *   GET  /api/shorturl/:number  resolve a short_url back to its URL
 *
 * The collection of { original_url, short_url } documents is held as two
 * maps, one per lookup the routes make (findOne by original_url and findOne
 * by short_url), together with the `short_url_seq` counter that the
 * auto-increment plugin keeps.  Requests are handled one after another.
 * The DNS lookup is an oracle: its answer is a parameter of Submit.
 */
module UrlRegistry {
  import opened UrlPattern
  import opened JsParseInt

  datatype Option<T> = None | Some(value: T)

  /** One stored document. */
  datatype UrlMapping = UrlMapping(originalUrl: string, shortUrl: nat)

  /** The JSON reply of the submit route. */
  datatype SubmitReply = Shortened(originalUrl: string, shortUrl: nat) | InvalidUrl

  /** The reply of the resolve route: a redirect, or the `invalid url` error for an unknown id. */
  datatype ResolveReply = Redirect(location: string) | NotFound

  /** The registry's state as a value: both lookups and the sequence counter. */
  datatype Store = Store(byUrl: map<string, nat>, byId: map<nat, string>, counter: nat)

  const Empty := Store(map[], map[], 0)

  /**
   * The registry invariant: the two maps are inverse to each other, the ids
   * in use are exactly 1..counter, and the counter is the number of mappings.
   */
  ghost predicate Consistent(st: Store) {
    && (forall u :: u in st.byUrl ==> st.byUrl[u] in st.byId && st.byId[st.byUrl[u]] == u)
    && (forall id :: id in st.byId ==> st.byId[id] in st.byUrl && st.byUrl[st.byId[id]] == id)
    && (forall id: nat :: id in st.byId <==> 1 <= id <= st.counter)
    && |st.byUrl| == st.counter
    && |st.byId| == st.counter
  }

  /** The submit route on a store: validate, ask DNS, look up, and insert only on absence. */
  function Submitted(st: Store, url: string, dnsResolves: bool): (Store, SubmitReply) {
    if !IsValidUrl(url) || !dnsResolves then (st, InvalidUrl)
    else if url in st.byUrl then (st, Shortened(url, st.byUrl[url]))
    else
      var id := st.counter + 1;
      (Store(st.byUrl[url := id], st.byId[id := url], id), Shortened(url, id))
  }

  /** The resolve route on a store: parse the parameter, then look the id up. */
  function Resolved(st: Store, param: string): ResolveReply {
    match ParseInt(param)
    case NaN => NotFound
    case Int(v) => if v >= 0 && v in st.byId then Redirect(st.byId[v]) else NotFound
  }

  /** The registry as the server holds it: a collection updated in place. */
  class Registry {
    var byUrl: map<string, nat>
    var byId: map<nat, string>
    var counter: nat

    function State(): Store
      reads this
    {
      Store(byUrl, byId, counter)
    }

    ghost predicate Valid()
      reads this
    {
      Consistent(State())
    }

    /** An empty collection whose sequence has issued nothing yet. */
    constructor ()
      ensures Valid() && State() == Empty
    {
      byUrl, byId, counter := map[], map[], 0;
    }

    /** checkExistUrlInDB: findOne({ original_url: url }). */
    method FindByUrl(url: string) returns (found: Option<UrlMapping>)
      requires Valid()
      ensures found.Some? <==> url in byUrl
      ensures found.Some? ==> found.value == UrlMapping(url, byUrl[url])
      ensures found.Some? ==> byId[found.value.shortUrl] == url
    {
      if url in byUrl {
        var id := byUrl[url];
        found := Some(UrlMapping(byId[id], id));
      } else {
        found := None;
      }
    }

    /** checkShortUrl: findOne({ short_url }); NaN and negative numbers match no document. */
    method FindByShortId(n: ParsedInt) returns (found: Option<string>)
      requires Valid()
      ensures found.Some? <==> n.Int? && 1 <= n.value <= counter
      ensures found.Some? ==> n.value in byId && found.value == byId[n.value]
      ensures found.Some? ==> found.value in byUrl && byUrl[found.value] == n.value
    {
      if n.Int? && n.value >= 0 && n.value in byId {
        found := Some(byId[n.value]);
      } else {
        found := None;
      }
    }

    /** save() of a new document: the sequence issues counter + 1 as its short_url. */
    method Save(url: string) returns (id: nat)
      requires Valid() && url !in byUrl
      modifies this
      ensures Valid()
      ensures id == old(counter) + 1 && counter == id
      ensures byUrl == old(byUrl)[url := id] && byId == old(byId)[id := url]
    {
      id := counter + 1;
      InsertKeepsConsistent(State(), url);
      byUrl := byUrl[url := id];
      byId := byId[id := url];
      counter := id;
    }

    /** POST /api/shorturl with the DNS lookup's answer for the URL's host. */
    method Submit(url: string, dnsResolves: bool) returns (reply: SubmitReply)
      requires Valid()
      modifies this
      ensures Valid()
      ensures (State(), reply) == Submitted(old(State()), url, dnsResolves)
      ensures !IsValidUrl(url) || !dnsResolves ==> reply == InvalidUrl && State() == old(State())
      ensures IsValidUrl(url) && dnsResolves && url in old(byUrl) ==>
                reply == Shortened(url, old(byUrl)[url]) && State() == old(State())
      ensures IsValidUrl(url) && dnsResolves && url !in old(byUrl) ==>
                && reply == Shortened(url, old(counter) + 1)
                && counter == old(counter) + 1
                && byUrl == old(byUrl)[url := counter]
                && byId == old(byId)[counter := url]
    {
      if !IsValidUrl(url) {
        return InvalidUrl;
      }
      if !dnsResolves {
        return InvalidUrl;
      }
      var existing := FindByUrl(url);
      if existing.Some? {
        return Shortened(existing.value.originalUrl, existing.value.shortUrl);
      }
      var id := Save(url);
      reply := Shortened(url, id);
    }

    /** GET /api/shorturl/:number; reads the collection and changes nothing. */
    method Resolve(param: string) returns (reply: ResolveReply)
      requires Valid()
      ensures reply == Resolved(State(), param)
      ensures reply.Redirect? <==> ParseInt(param).Int? && 1 <= ParseInt(param).value <= counter
      ensures reply.Redirect? ==> reply.location in byUrl && ParseInt(param) == Int(byUrl[reply.location])
    {
      var found := FindByShortId(ParseInt(param));
      if found.Some? {
        reply := Redirect(found.value);
      } else {
        reply := NotFound;
      }
    }
  }

  // ---------------------------------------------------------------------
  // Properties of the registry
  // ---------------------------------------------------------------------

  lemma EmptyIsConsistent()
    ensures Consistent(Empty)
  {
  }

  /** Submit keeps the invariant: fresh ids are never reused and never skip. */
  lemma SubmitKeepsConsistent(st: Store, url: string, dnsResolves: bool)
    requires Consistent(st)
    ensures Consistent(Submitted(st, url, dnsResolves).0)
  {
    if IsValidUrl(url) && dnsResolves && url !in st.byUrl {
      var id := st.counter + 1;
      InsertKeepsConsistent(st, url);
      assert Submitted(st, url, dnsResolves).0 == Store(st.byUrl[url := id], st.byId[id := url], id);
    } else {
      assert Submitted(st, url, dnsResolves).0 == st;
    }
  }

  /** Storing a new URL under counter + 1 keeps both maps inverse and the ids gap-free. */
  lemma InsertKeepsConsistent(st: Store, url: string)
    requires Consistent(st) && url !in st.byUrl
    ensures var id := st.counter + 1;
            Consistent(Store(st.byUrl[url := id], st.byId[id := url], id))
  {
    var id := st.counter + 1;
    assert id !in st.byId;
    var st1 := Store(st.byUrl[url := id], st.byId[id := url], id);
    assert forall u :: u in st1.byUrl ==> st1.byUrl[u] in st1.byId && st1.byId[st1.byUrl[u]] == u by {
      forall u | u in st1.byUrl ensures st1.byUrl[u] in st1.byId && st1.byId[st1.byUrl[u]] == u {
        if u != url {
          assert st.byUrl[u] != id;
        }
      }
    }
    assert forall i :: i in st1.byId ==> st1.byId[i] in st1.byUrl && st1.byUrl[st1.byId[i]] == i by {
      forall i | i in st1.byId ensures st1.byId[i] in st1.byUrl && st1.byUrl[st1.byId[i]] == i {
        if i != id {
          assert st.byId[i] != url;
        }
      }
    }
  }

  /** A failed validation or DNS lookup answers `invalid url` and changes nothing. */
  lemma RejectedSubmitChangesNothing(st: Store, url: string, dnsResolves: bool)
    requires !IsValidUrl(url) || !dnsResolves
    ensures Submitted(st, url, dnsResolves) == (st, InvalidUrl)
  {
  }

  /**
   * Submitting the same valid URL twice gives the same short_url both times,
   * the second submit changes nothing, and exactly one id maps to the URL.
   */
  lemma SubmitTwiceIsIdempotent(st: Store, url: string)
    requires Consistent(st) && IsValidUrl(url)
    ensures var (st1, r1) := Submitted(st, url, true);
            var (st2, r2) := Submitted(st1, url, true);
            && r1.Shortened? && r2 == r1 && st2 == st1
            && forall id :: id in st1.byId && st1.byId[id] == url <==> id == r1.shortUrl
  {
    SubmitKeepsConsistent(st, url, true);
  }

  /**
   * The reply echoes the submitted string unchanged, and the store maps its
   * short_url to that same string, in both directions.
   */
  lemma SubmitStoresOriginal(st: Store, url: string, dnsResolves: bool)
    requires Consistent(st)
    ensures var (st1, r) := Submitted(st, url, dnsResolves);
            r.Shortened? ==> r.originalUrl == url && r.shortUrl in st1.byId
                             && st1.byId[r.shortUrl] == url && st1.byUrl[url] == r.shortUrl
  {
    if IsValidUrl(url) && dnsResolves && url in st.byUrl {
      assert st.byUrl[url] in st.byId && st.byId[st.byUrl[url]] == url;
    }
  }

  /**
   * A newly registered URL gets an id above every id issued before it, so
   * ids are pairwise distinct; every id stays within 1..counter.
   */
  lemma FreshIdIsNew(st: Store, url: string)
    requires Consistent(st) && IsValidUrl(url) && url !in st.byUrl
    ensures var (st1, r) := Submitted(st, url, true);
            && r == Shortened(url, st.counter + 1)
            && st1.counter == st.counter + 1
            && (forall u :: u in st.byUrl ==> st.byUrl[u] < r.shortUrl)
            && (forall id :: id in st1.byId ==> 1 <= id <= st1.counter)
  {
    SubmitKeepsConsistent(st, url, true);
  }

  /** Mappings once made are never changed or removed. */
  lemma SubmitKeepsMappings(st: Store, url: string, dnsResolves: bool)
    requires Consistent(st)
    ensures var st1 := Submitted(st, url, dnsResolves).0;
            && st.counter <= st1.counter
            && (forall id :: id in st.byId ==> id in st1.byId && st1.byId[id] == st.byId[id])
            && (forall u :: u in st.byUrl ==> u in st1.byUrl && st1.byUrl[u] == st.byUrl[u])
  {
    if IsValidUrl(url) && dnsResolves && url !in st.byUrl {
      var id := st.counter + 1;
      assert id !in st.byId;
      assert forall u :: u in st.byUrl ==> u != url;
    }
  }

  /** Resolving the decimal spelling of an assigned id gives back the URL stored for it. */
  lemma ResolveAssigned(st: Store, id: nat)
    requires Consistent(st) && 1 <= id <= st.counter
    ensures Resolved(st, DecimalString(id)) == Redirect(st.byId[id])
    ensures st.byUrl[st.byId[id]] == id
  {
    ParseDecimalString(id);
  }

  /** An id never assigned, and a parameter that is no number, resolve to not-found. */
  lemma ResolveUnassigned(st: Store, param: string)
    requires Consistent(st)
    requires ParseInt(param).NaN? || !(1 <= ParseInt(param).value <= st.counter)
    ensures Resolved(st, param) == NotFound
  {
  }

  /** Submit then resolve: the short_url handed out redirects to exactly the submitted URL. */
  lemma SubmitThenResolve(st: Store, url: string, dnsResolves: bool)
    requires Consistent(st)
    ensures var (st1, r) := Submitted(st, url, dnsResolves);
            r.Shortened? ==> Resolved(st1, DecimalString(r.shortUrl)) == Redirect(url)
  {
    var (st1, r) := Submitted(st, url, dnsResolves);
    if r.Shortened? {
      SubmitKeepsConsistent(st, url, dnsResolves);
      ResolveAssigned(st1, r.shortUrl);
    }
  }

  /** A run of submit requests, each a URL with the DNS lookup's answer for it, handled in order. */
  function SubmitAll(st: Store, reqs: seq<(string, bool)>): (res: (Store, seq<SubmitReply>))
    ensures |res.1| == |reqs|
    decreases |reqs|
  {
    if reqs == [] then (st, [])
    else
      var (st1, r) := Submitted(st, reqs[0].0, reqs[0].1);
      var (st2, rs) := SubmitAll(st1, reqs[1..]);
      (st2, [r] + rs)
  }

  /** After a run of submits, every short_url handed out still maps to its URL. */
  lemma {:induction false} SubmitAllRecords(st: Store, reqs: seq<(string, bool)>)
    requires Consistent(st)
    ensures var (fin, rs) := SubmitAll(st, reqs);
            && Consistent(fin)
            && forall i :: 0 <= i < |rs| && rs[i].Shortened? ==>
                 rs[i].originalUrl == reqs[i].0 && reqs[i].0 in fin.byUrl && fin.byUrl[reqs[i].0] == rs[i].shortUrl
    decreases |reqs|
  {
    if reqs != [] {
      var (st1, r) := Submitted(st, reqs[0].0, reqs[0].1);
      SubmitKeepsConsistent(st, reqs[0].0, reqs[0].1);
      SubmitStoresOriginal(st, reqs[0].0, reqs[0].1);
      SubmitAllRecords(st1, reqs[1..]);
      var (fin, rs) := SubmitAll(st1, reqs[1..]);
      SubmitAllKeepsMappings(st1, reqs[1..]);
    }
  }

  /** A run of submits changes no mapping it finds. */
  lemma {:induction false} SubmitAllKeepsMappings(st: Store, reqs: seq<(string, bool)>)
    requires Consistent(st)
    ensures var fin := SubmitAll(st, reqs).0;
            forall u :: u in st.byUrl ==> u in fin.byUrl && fin.byUrl[u] == st.byUrl[u]
    decreases |reqs|
  {
    if reqs != [] {
      var st1 := Submitted(st, reqs[0].0, reqs[0].1).0;
      SubmitKeepsConsistent(st, reqs[0].0, reqs[0].1);
      SubmitKeepsMappings(st, reqs[0].0, reqs[0].1);
      SubmitAllKeepsMappings(st1, reqs[1..]);
    }
  }

  /**
   * Over any run of submits, two accepted requests get the same short_url
   * exactly when they carry the same URL: distinct URLs never share an id.
   */
  lemma SubmitAllIdsDistinct(st: Store, reqs: seq<(string, bool)>, i: nat, j: nat)
    requires Consistent(st)
    requires i < |reqs| && j < |reqs|
    ensures var rs := SubmitAll(st, reqs).1;
            rs[i].Shortened? && rs[j].Shortened? ==>
              (rs[i].shortUrl == rs[j].shortUrl <==> reqs[i].0 == reqs[j].0)
  {
    SubmitAllRecords(st, reqs);
  }

  /** Resolve trusts only the leading digits of its parameter: "12abc" finds id 12. */
  lemma ResolveReadsLeadingDigits(st: Store, param: string)
    requires Consistent(st) && 12 <= st.counter && param == "12abc"
    ensures Resolved(st, param) == Redirect(st.byId[12])
  {
    ParsesLeadingDigits(param);
  }

  /** The worked example: the first URL submitted to an empty registry gets id 1. */
  lemma FirstSubmission(url: string)
    requires url == "https://www.freecodecamp.org"
    ensures var (st1, r) := Submitted(Empty, url, true);
            r == Shortened(url, 1) && Resolved(st1, "1") == Redirect(url)
  {
    AcceptsDocExample(url);
    var (st1, r) := Submitted(Empty, url, true);
    assert r == Shortened(url, 1);
    SubmitThenResolve(Empty, url, true);
    assert DecimalString(1) == "1";
  }
}
