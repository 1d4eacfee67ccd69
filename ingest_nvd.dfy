/**
 * The `ingest-nvd` pass: page through the NVD CVE API and upsert every
 * record into `nvd_cve`, first in full when the stored data is missing
 * or older than 60 days, then for a window of recent modifications.
 * Timestamps are integer seconds; the API is a function from the query
 * parameters and `startIndex` to the decoded response, or a fetch error.
 */
module DataIngestNvd {
  import opened Wrappers
  import opened Json
  import opened Database
  import opened Sets

  const Day: int := 86400

  // ---------------------------------------------------------------- one record

  /** Python's `j[key]` on a decoded JSON value. */
  function Field(j: Json, key: string): (r: Result<Json>)
    ensures r.Ok? <==> j.JObj? && key in j.fields
    ensures r.Ok? ==> r.value == j.fields[key]
    ensures r.Err? ==> r.error == if j.JObj? then KeyError(key) else TypeError
  {
    if !j.JObj? then Err(TypeError)
    else if key !in j.fields then Err(KeyError(key))
    else Ok(j.fields[key])
  }

  /** `datetime.fromisoformat` of a JSON value, `ts` being the parser for strings. */
  function Stamp(v: Json, ts: string -> Option<int>): Result<int> {
    if !v.JStr? then Err(TypeError)
    else if ts(v.s).None? then Err(ValueError)
    else Ok(ts(v.s).value)
  }

  /** A record of the response: its `cve` object, with its id and last modification. */
  datatype Record = Record(id: string, lastMod: int, data: Json)

  /**
   * `entry_base['cve']`, then `lastModified` parsed, then `id`. An id
   * that is not a string is rejected by the driver and modelled as a
   * `TypeError`.
   */
  function RecordOf(entryBase: Json, ts: string -> Option<int>): (r: Result<Record>)
    ensures r.Ok? ==> && entryBase.JObj? && "cve" in entryBase.fields
                      && var cve := entryBase.fields["cve"];
                         && r.value.data == cve && cve.JObj?
                         && "id" in cve.fields && cve.fields["id"] == JStr(r.value.id)
                         && "lastModified" in cve.fields && Stamp(cve.fields["lastModified"], ts) == Ok(r.value.lastMod)
  {
    match Field(entryBase, "cve")
    case Err(e) => Err(e)
    case Ok(cve) =>
      match Field(cve, "lastModified")
      case Err(e) => Err(e)
      case Ok(lm) =>
        match Stamp(lm, ts)
        case Err(e) => Err(e)
        case Ok(stamp) =>
          match Field(cve, "id")
          case Err(e) => Err(e)
          case Ok(id) => if id.JStr? then Ok(Record(id.s, stamp, cve)) else Err(TypeError)
  }

  /**
   * The upsert keyed by `cve_id`: a new id is inserted; a stored row is
   * overwritten only when its `last_mod` differs.
   */
  function Upsert(nvd: map<string, NvdCveRow>, r: Record): (u: map<string, NvdCveRow>)
    ensures u.Keys == nvd.Keys + {r.id}
    ensures forall k :: k in nvd && k != r.id ==> u[k] == nvd[k]
    ensures u[r.id].lastMod == r.lastMod
    ensures r.id !in nvd || nvd[r.id].lastMod != r.lastMod ==> u[r.id] == NvdCveRow(r.id, r.lastMod, r.data)
    ensures r.id in nvd && nvd[r.id].lastMod == r.lastMod ==> u == nvd
  {
    if r.id in nvd && nvd[r.id].lastMod == r.lastMod then nvd
    else nvd[r.id := NvdCveRow(r.id, r.lastMod, r.data)]
  }

  /** Upserting a record twice is upserting it once. */
  lemma UpsertIdempotent(nvd: map<string, NvdCveRow>, r: Record)
    ensures Upsert(Upsert(nvd, r), r) == Upsert(nvd, r)
  {
  }

  /** The table stays keyed by CVE id. */
  lemma UpsertTable(nvd: map<string, NvdCveRow>, r: Record)
    requires NvdTable(nvd)
    ensures NvdTable(Upsert(nvd, r))
  {
  }

  /** The records `entries` upserted in order; the first malformed record ends it. */
  function UpsertAll(nvd: map<string, NvdCveRow>, entries: seq<Json>, ts: string -> Option<int>): Result<map<string, NvdCveRow>>
    decreases |entries|
  {
    if entries == [] then Ok(nvd)
    else
      match UpsertAll(nvd, entries[..|entries| - 1], ts)
      case Err(e) => Err(e)
      case Ok(m) =>
        match RecordOf(entries[|entries| - 1], ts)
        case Err(e) => Err(e)
        case Ok(r) => Ok(Upsert(m, r))
  }

  /** A successful batch keeps the table keyed by CVE id. */
  lemma {:induction false} UpsertAllTable(nvd: map<string, NvdCveRow>, entries: seq<Json>, ts: string -> Option<int>)
    requires NvdTable(nvd) && UpsertAll(nvd, entries, ts).Ok?
    ensures NvdTable(UpsertAll(nvd, entries, ts).value)
    decreases |entries|
  {
    if entries != [] {
      var n := |entries| - 1;
      UpsertAllTable(nvd, entries[..n], ts);
      UpsertTable(UpsertAll(nvd, entries[..n], ts).value, RecordOf(entries[n], ts).value);
    }
  }

  /** The id of a record of the batch that reads back. */
  ghost predicate InBatch(entries: seq<Json>, ts: string -> Option<int>, k: string) {
    exists i :: 0 <= i < |entries| && IdOf(entries[i], ts) == Some(k)
  }

  /** The id a record reads back with, if it reads back. */
  function IdOf(e: Json, ts: string -> Option<int>): Option<string> {
    match RecordOf(e, ts)
    case Ok(r) => Some(r.id)
    case Err(_) => None
  }

  /** A successful batch read every one of its records. */
  lemma UpsertAllParsed(nvd: map<string, NvdCveRow>, entries: seq<Json>, ts: string -> Option<int>)
    requires UpsertAll(nvd, entries, ts).Ok?
    ensures forall i :: 0 <= i < |entries| ==> IdOf(entries[i], ts).Some?
  {
    forall i | 0 <= i < |entries| ensures IdOf(entries[i], ts).Some? {
      if IdOf(entries[i], ts).None? {
        var p := entries[..i + 1];
        assert p[..i] == entries[..i] && p[i] == entries[i];
        UpsertAllErr(nvd, entries, ts, i + 1);
      }
    }
  }

  /** After a successful batch an id is in the table exactly when it was stored or is one of the batch's ids. */
  lemma {:induction false} UpsertAllKey(nvd: map<string, NvdCveRow>, entries: seq<Json>, ts: string -> Option<int>, k: string)
    requires UpsertAll(nvd, entries, ts).Ok?
    ensures k in UpsertAll(nvd, entries, ts).value <==> k in nvd || InBatch(entries, ts, k)
    decreases |entries|
  {
    if entries != [] {
      var n := |entries| - 1;
      var prefix := entries[..n];
      UpsertAllKey(nvd, prefix, ts, k);
      var r := RecordOf(entries[n], ts).value;
      assert UpsertAll(nvd, entries, ts).value == Upsert(UpsertAll(nvd, prefix, ts).value, r);
      assert IdOf(entries[n], ts) == Some(r.id);
      InBatchSnoc(entries, ts, k);
    }
  }

  /** The ids of a batch are those of all but its last record and that record's. */
  lemma InBatchSnoc(entries: seq<Json>, ts: string -> Option<int>, k: string)
    requires entries != []
    ensures InBatch(entries, ts, k) <==> InBatch(entries[..|entries| - 1], ts, k) || IdOf(entries[|entries| - 1], ts) == Some(k)
  {
    var n := |entries| - 1;
    var prefix := entries[..n];
    if InBatch(entries, ts, k) && IdOf(entries[n], ts) != Some(k) {
      var i :| 0 <= i < |entries| && IdOf(entries[i], ts) == Some(k);
      assert i < n && entries[i] == prefix[i];
    }
    if InBatch(prefix, ts, k) {
      var i :| 0 <= i < n && IdOf(prefix[i], ts) == Some(k);
      assert entries[i] == prefix[i];
    }
  }

  /** `insert_cve`: upsert each record of a page in turn; a malformed record raises. */
  method InsertCve(store: Store, entries: seq<Json>, ts: string -> Option<int>) returns (r: Result<()>)
    requires store.Valid()
    modifies store`nvd
    ensures store.Valid()
    ensures var U := UpsertAll(old(store.nvd), entries, ts);
      && (U.Ok? ==> r == Ok(()) && store.nvd == U.value)
      && (U.Err? ==> r == Err(U.error))
  {
    ghost var t0 := store.nvd;
    for i := 0 to |entries|
      invariant store.Valid()
      invariant UpsertAll(t0, entries[..i], ts) == Ok(store.nvd)
    {
      assert entries[..i + 1][..i] == entries[..i];
      var rec := RecordOf(entries[i], ts);
      if rec.Err? {
        UpsertAllErr(t0, entries, ts, i + 1);
        return Err(rec.error);
      }
      UpsertTable(store.nvd, rec.value);
      store.SetNvd(Upsert(store.nvd, rec.value));
    }
    assert entries[..|entries|] == entries;
    r := Ok(());
  }

  /** Once a prefix of the batch fails, the whole batch fails with the same error. */
  lemma {:induction false} UpsertAllErr(nvd: map<string, NvdCveRow>, entries: seq<Json>, ts: string -> Option<int>, n: nat)
    requires n <= |entries| && UpsertAll(nvd, entries[..n], ts).Err?
    ensures UpsertAll(nvd, entries, ts) == UpsertAll(nvd, entries[..n], ts)
    decreases |entries| - n
  {
    if n < |entries| {
      assert entries[..n + 1][..n] == entries[..n];
      UpsertAllErr(nvd, entries, ts, n + 1);
    } else {
      assert entries[..n] == entries;
    }
  }

  // ---------------------------------------------------------------- paging

  /** The API: the decoded response for query parameters (a modification window or none) and `startIndex`. */
  type Server = (Option<(int, int)>, int) -> Result<Json>

  /**
   * One response: `totalResults` must be there (the debug message reads
   * it), then `vulnerabilities`; a falsy value ends the paging, a
   * non-empty list is a page, anything else cannot be iterated as records.
   */
  function Page(resp: Result<Json>): (r: Result<Option<seq<Json>>>)
    ensures r.Ok? && r.value.Some? ==> |r.value.value| > 0
  {
    match resp
    case Err(e) => Err(e)
    case Ok(data) =>
      match Field(data, "totalResults")
      case Err(e) => Err(e)
      case Ok(_) =>
        match Field(data, "vulnerabilities")
        case Err(e) => Err(e)
        case Ok(v) => if !Truthy(v) then Ok(None) else if v.JArr? then Ok(Some(v.items)) else Err(TypeError)
  }

  /** The NVD holds finitely many records: from index `bound` on every page is empty. */
  ghost predicate ServerEnds(server: Server, bound: int) {
    forall p, o :: o >= bound ==> Page(server(p, o)) == Ok(None)
  }

  /** `fetch_cve_impl` from `offset` on: fetch a page, upsert it, advance by its length; stop at the first empty page. */
  function Paging(nvd: map<string, NvdCveRow>, server: Server, params: Option<(int, int)>, offset: int,
                  ts: string -> Option<int>, bound: int): Result<map<string, NvdCveRow>>
    requires ServerEnds(server, bound)
    decreases if offset < bound then bound - offset else 0
  {
    match Page(server(params, offset))
    case Err(e) => Err(e)
    case Ok(None) => Ok(nvd)
    case Ok(Some(items)) =>
      match UpsertAll(nvd, items, ts)
      case Err(e) => Err(e)
      case Ok(n) => Paging(n, server, params, offset + |items|, ts, bound)
  }

  /** One step of the paging: the page at `offset` decides, and a page means `offset` is below the bound. */
  lemma PagingStep(nvd: map<string, NvdCveRow>, server: Server, params: Option<(int, int)>, offset: int,
                   ts: string -> Option<int>, bound: int)
    requires ServerEnds(server, bound)
    ensures var P := Page(server(params, offset));
      var Q := Paging(nvd, server, params, offset, ts, bound);
      && (P.Err? ==> Q == Err(P.error))
      && (P == Ok(None) ==> Q == Ok(nvd))
      && (P.Ok? && P.value.Some? ==>
            && offset < bound
            && var U := UpsertAll(nvd, P.value.value, ts);
               && (U.Err? ==> Q == Err(U.error))
               && (U.Ok? ==> Q == Paging(U.value, server, params, offset + |P.value.value|, ts, bound)))
  {
  }

  /** `fetch_cve_impl`: `startIndex` starts at 0 and grows by each page's length. */
  method FetchImpl(store: Store, server: Server, params: Option<(int, int)>, ts: string -> Option<int>, ghost bound: int) returns (r: Result<()>)
    requires store.Valid() && ServerEnds(server, bound)
    modifies store`nvd
    ensures store.Valid()
    ensures var P := Paging(old(store.nvd), server, params, 0, ts, bound);
      && (P.Ok? ==> r == Ok(()) && store.nvd == P.value)
      && (P.Err? ==> r == Err(P.error))
  {
    var offset := 0;
    while true
      invariant store.Valid()
      invariant Paging(old(store.nvd), server, params, 0, ts, bound) == Paging(store.nvd, server, params, offset, ts, bound)
      decreases if offset < bound then bound - offset else 0
    {
      var page := Page(server(params, offset));
      PagingStep(store.nvd, server, params, offset, ts, bound);
      if page.Err? {
        return Err(page.error);
      }
      if page.value.None? {
        return Ok(());
      }
      var entries := page.value.value;
      var ins := InsertCve(store, entries, ts);
      if ins.Err? {
        return ins;
      }
      offset := offset + |entries|;
    }
  }

  // ---------------------------------------------------------------- the window

  /** The largest `last_mod` among a set of stamps: `select(func.max(...))`, `None` on an empty table. */
  ghost predicate IsMax(stamps: set<int>, m: Option<int>) {
    && (m.None? <==> stamps == {})
    && (m.Some? ==> m.value in stamps && forall x :: x in stamps ==> x <= m.value)
  }

  function Stamps(nvd: map<string, NvdCveRow>): set<int> {
    set k | k in nvd :: nvd[k].lastMod
  }

  lemma MaxUnique(stamps: set<int>, a: Option<int>, b: Option<int>)
    requires IsMax(stamps, a) && IsMax(stamps, b)
    ensures a == b
  {
    if a.Some? {
      assert a.value <= b.value && b.value <= a.value;
    }
  }

  /** Taking one more stamp into account keeps the larger of the two. */
  lemma MaxStep(seen: set<int>, m: Option<int>, x: int)
    requires IsMax(seen, m)
    ensures IsMax(seen + {x}, if m.None? || m.value < x then Some(x) else m)
  {
  }

  /** `select(func.max(NvdCve.last_mod))`. */
  method MaxLastMod(nvd: map<string, NvdCveRow>) returns (m: Option<int>)
    ensures IsMax(Stamps(nvd), m)
  {
    var todo := Stamps(nvd);
    ghost var seen: set<int> := {};
    m := None;
    while todo != {}
      invariant seen + todo == Stamps(nvd)
      invariant IsMax(seen, m)
      decreases |todo|
    {
      NonEmptyHas(todo);
      var x :| x in todo;
      MaxStep(seen, m, x);
      if m.None? || m.value < x {
        m := Some(x);
      }
      seen, todo := seen + {x}, todo - {x};
    }
  }

  /** The window decision: whether to fetch everything first, and the start of the windowed fetch. */
  datatype Plan = Plan(full: bool, check: int)

  /**
   * A full fetch happens exactly when nothing is stored or the newest
   * stored modification is at least 60 days old; the window then starts
   * 7 days before `now`, and otherwise 7 days before that modification.
   */
  function PlanFor(stored: Option<int>, now: int): (p: Plan)
    ensures p.full <==> stored.None? || stored.value <= now - 60 * Day
    ensures p.full ==> p.check == now - 7 * Day
    ensures !p.full ==> p.check == stored.value - 7 * Day && p.check > now - 67 * Day
  {
    var start := now - 60 * Day;
    var full := stored.None? || stored.value <= start;
    var lastMod := if full then now else stored.value;
    Plan(full, lastMod - 7 * Day)
  }

  /** A stored modification no later than `now` gives a window of at least 7 days. */
  lemma WindowLength(stored: Option<int>, now: int)
    requires stored.Some? ==> stored.value <= now
    ensures var p := PlanFor(stored, now); 7 * Day <= now - p.check < 67 * Day
  {
  }

  /**
   * `fetch_cve` inside its transaction: the full fetch when planned, then
   * the windowed fetch from the plan's start to `now`. A failure rolls
   * `nvd_cve` back.
   */
  method FetchCve(store: Store, server: Server, now: int, ts: string -> Option<int>, ghost bound: int) returns (r: Result<()>)
    requires store.Valid() && ServerEnds(server, bound)
    modifies store`nvd
    ensures store.Valid()
    ensures forall stored :: IsMax(Stamps(old(store.nvd)), stored) ==>
      var p := PlanFor(stored, now);
      var F := if p.full then Paging(old(store.nvd), server, None, 0, ts, bound) else Ok(old(store.nvd));
      var W := if F.Ok? then Paging(F.value, server, Some((p.check, now)), 0, ts, bound) else F;
      && (W.Ok? ==> r == Ok(()) && store.nvd == W.value)
      && (W.Err? ==> r == Err(W.error) && store.nvd == old(store.nvd))
  {
    var t0 := store.nvd;
    var stored := MaxLastMod(store.nvd);
    var p := PlanFor(stored, now);
    if p.full {
      r := FetchImpl(store, server, None, ts, bound);
      if r.Err? {
        store.SetNvd(t0);
        forall s | IsMax(Stamps(t0), s) ensures s == stored { MaxUnique(Stamps(t0), s, stored); }
        return;
      }
    }
    r := FetchImpl(store, server, Some((p.check, now)), ts, bound);
    if r.Err? {
      store.SetNvd(t0);
    }
    forall s | IsMax(Stamps(t0), s) ensures s == stored { MaxUnique(Stamps(t0), s, stored); }
  }
}
