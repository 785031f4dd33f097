/** The batch fetcher: one page of candidates, filtered against the processed
    set, each survivor's light curve queried, the rows concatenated. */
module BatchFetch {
  import opened Records

  /** The remote catalog, as injected answers. Page `p` (counted from 1) is
      `pages[p - 1]`, where `None` is a failed page query; every page past the
      end is empty. `detections(p, oid)` answers the light-curve query for
      `oid` issued while page `p` is fetched (`None` is a failed query). */
  datatype Catalog = Catalog(
    pages: seq<Option<seq<Candidate>>>,
    detections: (int, Oid) -> Option<seq<Detection>>)

  function PageQuery(cat: Catalog, page: int): Option<seq<Candidate>> {
    if 1 <= page <= |cat.pages| then cat.pages[page - 1] else Some([])
  }

  /** What one page contributes: the detection rows and the identifiers of
      the candidates that produced them. */
  datatype Batch = Batch(rows: seq<Detection>, oids: seq<Oid>)

  const NoBatch := Batch([], [])

  function Join(a: Batch, b: Batch): Batch {
    Batch(a.rows + b.rows, a.oids + b.oids)
  }

  /** The candidates of a page whose identifier is not yet processed, in page order. */
  function Unprocessed(cands: seq<Candidate>, memo: set<Oid>): (r: seq<Candidate>)
    ensures |r| <= |cands|
    ensures forall c :: c in r <==> c in cands && c.oid !in memo
  {
    if cands == [] then []
    else (if cands[0].oid in memo then [] else [cands[0]]) + Unprocessed(cands[1..], memo)
  }

  /** The rows a candidate's detection query yields; a failed query yields none. */
  function Answer(cat: Catalog, page: int, c: Candidate): seq<Detection> {
    match cat.detections(page, c.oid)
    case None => []
    case Some(ds) => ds
  }

  /** A raw detection row, stamped with its candidate's identifier and, when
      the candidate row carries them, its coordinates. */
  function Tag(c: Candidate, d: Detection): Detection {
    d.(oid := c.oid, coords := if c.coords.Some? then c.coords else d.coords)
  }

  function TagAll(c: Candidate, ds: seq<Detection>): (r: seq<Detection>)
    ensures |r| == |ds|
  {
    seq(|ds|, i requires 0 <= i < |ds| => Tag(c, ds[i]))
  }

  /** Every stamped row carries the candidate's oid; the candidate's
      coordinates replace the row's when the page carries them; time, band
      and magnitudes are the raw row's. */
  lemma TagAllStamps(c: Candidate, ds: seq<Detection>)
    ensures var r := TagAll(c, ds);
      forall i :: 0 <= i < |r| ==>
        && r[i].oid == c.oid
        && r[i].mjd == ds[i].mjd && r[i].fid == ds[i].fid
        && r[i].magpsf == ds[i].magpsf && r[i].sigmapsf == ds[i].sigmapsf
        && r[i].coords == (if c.coords.Some? then c.coords else ds[i].coords)
  {
  }

  /** What a single candidate contributes to its page's batch. */
  function Contribution(cat: Catalog, page: int, c: Candidate): Batch {
    var ds := Answer(cat, page, c);
    if ds == [] then NoBatch else Batch(TagAll(c, ds), [c.oid])
  }

  /** The batch assembled from a list of candidates, one at a time from the front. */
  function Gather(cat: Catalog, page: int, cs: seq<Candidate>): Batch
    decreases |cs|
  {
    if cs == [] then NoBatch
    else Join(Gather(cat, page, cs[..|cs| - 1]), Contribution(cat, page, cs[|cs| - 1]))
  }

  /** A list of candidates yields at most one oid per candidate. */
  lemma {:induction false} GatherOidsBound(cat: Catalog, page: int, cs: seq<Candidate>)
    ensures |Gather(cat, page, cs).oids| <= |cs|
    decreases |cs|
  {
    if cs != [] {
      GatherOidsBound(cat, page, cs[..|cs| - 1]);
    }
  }

  /** The batch a page yields: nothing when the page query fails, otherwise the
      contributions of its unprocessed candidates. */
  function FetchSpec(cat: Catalog, page: int, memo: set<Oid>): (r: Batch)
    ensures PageQuery(cat, page).None? ==> r == NoBatch
    ensures PageQuery(cat, page).Some? ==> |r.oids| <= |PageQuery(cat, page).value|
  {
    match PageQuery(cat, page)
    case None => NoBatch
    case Some(cands) =>
      GatherOidsBound(cat, page, Unprocessed(cands, memo));
      Gather(cat, page, Unprocessed(cands, memo))
  }

  // Independent reference definitions, recursive from the front.

  predicate Productive(cat: Catalog, page: int, c: Candidate) {
    Answer(cat, page, c) != []
  }

  /** The candidates whose detection query succeeded with at least one row. */
  function Survivors(cat: Catalog, page: int, cs: seq<Candidate>): seq<Candidate> {
    if cs == [] then []
    else (if Productive(cat, page, cs[0]) then [cs[0]] else []) + Survivors(cat, page, cs[1..])
  }

  function OidsOf(cs: seq<Candidate>): seq<Oid> {
    if cs == [] then [] else [cs[0].oid] + OidsOf(cs[1..])
  }

  /** Every candidate's stamped rows, concatenated in candidate order. */
  function RowsOf(cat: Catalog, page: int, cs: seq<Candidate>): seq<Detection> {
    if cs == [] then [] else TagAll(cs[0], Answer(cat, page, cs[0])) + RowsOf(cat, page, cs[1..])
  }

  /** A candidate whose query fails or returns no rows is not among the oids of the survivors. */
  lemma {:induction false} SurvivorsProductive(cat: Catalog, page: int, cs: seq<Candidate>, c: Candidate)
    requires !Productive(cat, page, c)
    ensures c.oid !in OidsOf(Survivors(cat, page, cs))
    decreases |cs|
  {
    if cs != [] {
      SurvivorsProductive(cat, page, cs[1..], c);
      OidsOfAppend(if Productive(cat, page, cs[0]) then [cs[0]] else [], Survivors(cat, page, cs[1..]));
    }
  }

  // Lemmas about Gather.

  lemma JoinAssociative(a: Batch, b: Batch, c: Batch)
    ensures Join(Join(a, b), c) == Join(a, Join(b, c))
  {
  }

  lemma {:induction false} GatherAppend(cat: Catalog, page: int, xs: seq<Candidate>, ys: seq<Candidate>)
    ensures Gather(cat, page, xs + ys) == Join(Gather(cat, page, xs), Gather(cat, page, ys))
    decreases |ys|
  {
    if ys == [] {
      assert xs + ys == xs;
      var g := Gather(cat, page, xs);
      assert Join(g, NoBatch) == g by {
        assert g.rows + [] == g.rows;
        assert g.oids + [] == g.oids;
      }
    } else {
      var n := |ys| - 1;
      var zs := xs + ys;
      assert zs[..|zs| - 1] == xs + ys[..n];
      assert zs[|zs| - 1] == ys[n];
      calc {
        Gather(cat, page, zs);
        Join(Gather(cat, page, xs + ys[..n]), Contribution(cat, page, ys[n]));
        { GatherAppend(cat, page, xs, ys[..n]); }
        Join(Join(Gather(cat, page, xs), Gather(cat, page, ys[..n])), Contribution(cat, page, ys[n]));
        { JoinAssociative(Gather(cat, page, xs), Gather(cat, page, ys[..n]), Contribution(cat, page, ys[n])); }
        Join(Gather(cat, page, xs), Join(Gather(cat, page, ys[..n]), Contribution(cat, page, ys[n])));
      }
    }
  }

  lemma {:induction false} GatherCons(cat: Catalog, page: int, c: Candidate, cs: seq<Candidate>)
    ensures Gather(cat, page, [c] + cs) == Join(Contribution(cat, page, c), Gather(cat, page, cs))
  {
    var k := Contribution(cat, page, c);
    assert [c][..0] == [];
    assert Gather(cat, page, [c]) == Join(NoBatch, k);
    assert Join(NoBatch, k) == k by {
      assert [] + k.rows == k.rows;
      assert [] + k.oids == k.oids;
    }
    GatherAppend(cat, page, [c], cs);
  }

  /** The oids of a batch are exactly the productive candidates, in order, and
      its rows are every candidate's stamped rows in order. */
  lemma {:induction false} GatherMatchesReference(cat: Catalog, page: int, cs: seq<Candidate>)
    ensures Gather(cat, page, cs).oids == OidsOf(Survivors(cat, page, cs))
    ensures Gather(cat, page, cs).rows == RowsOf(cat, page, cs)
    decreases |cs|
  {
    if cs != [] {
      assert cs == [cs[0]] + cs[1..];
      GatherCons(cat, page, cs[0], cs[1..]);
      GatherMatchesReference(cat, page, cs[1..]);
      OidsOfAppend(if Productive(cat, page, cs[0]) then [cs[0]] else [], Survivors(cat, page, cs[1..]));
    }
  }

  lemma {:induction false} OidsOfAppend(xs: seq<Candidate>, ys: seq<Candidate>)
    ensures OidsOf(xs + ys) == OidsOf(xs) + OidsOf(ys)
    decreases |xs|
  {
    if xs != [] {
      assert (xs + ys)[0] == xs[0];
      assert (xs + ys)[1..] == xs[1..] + ys;
      OidsOfAppend(xs[1..], ys);
      assert [xs[0].oid] + (OidsOf(xs[1..]) + OidsOf(ys)) == [xs[0].oid] + OidsOf(xs[1..]) + OidsOf(ys);
    } else {
      assert xs + ys == ys;
      assert [] + OidsOf(ys) == OidsOf(ys);
    }
  }

  /** Every row of a gathered batch belongs to one of the batch's oids, and
      oids and rows are empty together. */
  lemma {:induction false} GatherRowsOwned(cat: Catalog, page: int, cs: seq<Candidate>)
    ensures var b := Gather(cat, page, cs);
      && (forall i :: 0 <= i < |b.rows| ==> b.rows[i].oid in b.oids)
      && (b.rows == [] <==> b.oids == [])
    decreases |cs|
  {
    if cs != [] {
      var n := |cs| - 1;
      GatherRowsOwned(cat, page, cs[..n]);
      var a, k := Gather(cat, page, cs[..n]), Contribution(cat, page, cs[n]);
      JoinOwned(a, k);
    }
  }

  lemma JoinOwned(a: Batch, k: Batch)
    requires forall i :: 0 <= i < |a.rows| ==> a.rows[i].oid in a.oids
    requires forall i :: 0 <= i < |k.rows| ==> k.rows[i].oid in k.oids
    requires (a.rows == [] <==> a.oids == []) && (k.rows == [] <==> k.oids == [])
    ensures var b := Join(a, k);
      && (forall i :: 0 <= i < |b.rows| ==> b.rows[i].oid in b.oids)
      && (b.rows == [] <==> b.oids == [])
  {
  }

  /** The set of oids of a list of candidates. */
  function CandidateOids(cs: seq<Candidate>): set<Oid> {
    set c | c in cs :: c.oid
  }

  /** Every oid of a gathered batch is the oid of one of the candidates. */
  lemma {:induction false} GatherOidsFromCandidates(cat: Catalog, page: int, cs: seq<Candidate>)
    ensures Elems(Gather(cat, page, cs).oids) <= CandidateOids(cs)
    decreases |cs|
  {
    if cs != [] {
      var n := |cs| - 1;
      GatherOidsFromCandidates(cat, page, cs[..n]);
      assert CandidateOids(cs[..n]) <= CandidateOids(cs) by {
        forall o | o in CandidateOids(cs[..n]) ensures o in CandidateOids(cs) {
          var c :| c in cs[..n] && c.oid == o;
          assert c in cs;
        }
      }
      var a, k := Gather(cat, page, cs[..n]), Contribution(cat, page, cs[n]);
      assert Elems(k.oids) <= {cs[n].oid};
      assert Elems(a.oids + k.oids) == Elems(a.oids) + Elems(k.oids);
    }
  }

  /** A candidate whose query fails or returns no rows is skipped and changes
      nothing else in the batch. */
  lemma FailureIsolated(cat: Catalog, page: int, xs: seq<Candidate>, c: Candidate, ys: seq<Candidate>)
    requires !Productive(cat, page, c)
    ensures Gather(cat, page, xs + [c] + ys) == Gather(cat, page, xs + ys)
  {
    GatherAppend(cat, page, xs + [c], ys);
    GatherAppend(cat, page, xs, [c]);
    GatherAppend(cat, page, xs, ys);
    assert Gather(cat, page, [c]) == Join(NoBatch, NoBatch);
    assert Gather(cat, page, xs) == Join(Gather(cat, page, xs), NoBatch);
  }

  /** A batch depends only on the detection answers for the listed
      candidates' oids. */
  lemma {:induction false} GatherIgnoresOthers(c1: Catalog, c2: Catalog, page: int, cs: seq<Candidate>)
    requires forall c :: c in cs ==> c1.detections(page, c.oid) == c2.detections(page, c.oid)
    ensures Gather(c1, page, cs) == Gather(c2, page, cs)
    decreases |cs|
  {
    if cs != [] {
      var n := |cs| - 1;
      assert cs[n] in cs;
      forall c | c in cs[..n] ensures c1.detections(page, c.oid) == c2.detections(page, c.oid) {
        assert c in cs;
      }
      GatherIgnoresOthers(c1, c2, page, cs[..n]);
    }
  }

  // Properties of a whole page.

  lemma FetchExcludesProcessed(cat: Catalog, page: int, memo: set<Oid>)
    ensures var b := FetchSpec(cat, page, memo);
      forall i :: 0 <= i < |b.oids| ==> b.oids[i] !in memo
  {
    match PageQuery(cat, page)
    case None =>
    case Some(cands) =>
      var pending := Unprocessed(cands, memo);
      GatherOidsFromCandidates(cat, page, pending);
      var b := Gather(cat, page, pending);
      forall i | 0 <= i < |b.oids| ensures b.oids[i] !in memo {
        assert b.oids[i] in Elems(b.oids);
        var c :| c in pending && c.oid == b.oids[i];
      }
  }

  /** Filtering comes before any detection query: two catalogs that agree on
      the page and on the answers for unprocessed oids yield the same batch. */
  lemma FetchIgnoresProcessed(c1: Catalog, c2: Catalog, page: int, memo: set<Oid>)
    requires PageQuery(c1, page) == PageQuery(c2, page)
    requires forall o :: o !in memo ==> c1.detections(page, o) == c2.detections(page, o)
    ensures FetchSpec(c1, page, memo) == FetchSpec(c2, page, memo)
  {
    match PageQuery(c1, page)
    case None =>
    case Some(cands) =>
      GatherIgnoresOthers(c1, c2, page, Unprocessed(cands, memo));
  }

  /** A page's oids are exactly its unprocessed candidates whose query
      succeeded with rows, in page order; its rows are their stamped rows in
      that order, and each row carries one of those oids. */
  lemma FetchCharacterized(cat: Catalog, page: int, memo: set<Oid>)
    ensures var b := FetchSpec(cat, page, memo);
      match PageQuery(cat, page)
      case None => b == NoBatch
      case Some(cands) =>
        && b.oids == OidsOf(Survivors(cat, page, Unprocessed(cands, memo)))
        && b.rows == RowsOf(cat, page, Unprocessed(cands, memo))
        && (forall i :: 0 <= i < |b.rows| ==> b.rows[i].oid in b.oids)
        && Elems(b.oids) <= CandidateOids(cands)
  {
    match PageQuery(cat, page)
    case None =>
    case Some(cands) =>
      var pending := Unprocessed(cands, memo);
      GatherMatchesReference(cat, page, pending);
      GatherRowsOwned(cat, page, pending);
      GatherOidsFromCandidates(cat, page, pending);
      assert CandidateOids(pending) <= CandidateOids(cands);
  }

  lemma {:induction false} NoSurvivorsNoBatch(cat: Catalog, page: int, cs: seq<Candidate>)
    requires forall c :: c in cs ==> !Productive(cat, page, c)
    ensures Gather(cat, page, cs) == NoBatch
    decreases |cs|
  {
    if cs != [] {
      var n := |cs| - 1;
      assert cs[n] in cs;
      forall c | c in cs[..n] ensures !Productive(cat, page, c) { assert c in cs; }
      NoSurvivorsNoBatch(cat, page, cs[..n]);
    }
  }

  /** The four ways a page yields the empty result. */
  lemma FetchEmptyCases(cat: Catalog, page: int, memo: set<Oid>)
    ensures PageQuery(cat, page).None? ==> FetchSpec(cat, page, memo) == NoBatch
    ensures PageQuery(cat, page) == Some([]) ==> FetchSpec(cat, page, memo) == NoBatch
    ensures (PageQuery(cat, page).Some? &&
             forall c :: c in PageQuery(cat, page).value ==> c.oid in memo)
      ==> FetchSpec(cat, page, memo) == NoBatch
    ensures (PageQuery(cat, page).Some? &&
             forall c :: c in PageQuery(cat, page).value && c.oid !in memo ==> !Productive(cat, page, c))
      ==> FetchSpec(cat, page, memo) == NoBatch
  {
    match PageQuery(cat, page)
    case None =>
    case Some(cands) =>
      var pending := Unprocessed(cands, memo);
      if forall c :: c in cands && c.oid !in memo ==> !Productive(cat, page, c) {
        NoSurvivorsNoBatch(cat, page, pending);
      }
      if forall c :: c in cands ==> c.oid in memo {
        assert pending == [];
      }
  }

  /** What the loop of fetch_batch relies on about its reference batch. */
  lemma FetchFacts(cat: Catalog, page: int, memo: set<Oid>)
    ensures var b := FetchSpec(cat, page, memo);
      && (forall i :: 0 <= i < |b.oids| ==> b.oids[i] !in memo)
      && (forall i :: 0 <= i < |b.rows| ==> b.rows[i].oid in b.oids)
      && (b.rows == [] <==> b.oids == [])
  {
    FetchExcludesProcessed(cat, page, memo);
    match PageQuery(cat, page)
    case None =>
    case Some(cands) => GatherRowsOwned(cat, page, Unprocessed(cands, memo));
  }

  /** Appending one candidate to the list extends its batch by that candidate's contribution. */
  lemma GatherSnoc(cat: Catalog, page: int, cs: seq<Candidate>, i: nat)
    requires i < |cs|
    ensures Gather(cat, page, cs[..i + 1]) == Join(Gather(cat, page, cs[..i]), Contribution(cat, page, cs[i]))
  {
    assert cs[..i + 1][..i] == cs[..i];
  }

  /** One loop iteration of fetch_batch: a candidate whose query yields rows
      appends its stamped rows and its oid; any other leaves the batch alone. */
  lemma GatherStep(cat: Catalog, page: int, cs: seq<Candidate>, i: nat, rows: seq<Detection>, oids: seq<Oid>)
    requires i < |cs| && Batch(rows, oids) == Gather(cat, page, cs[..i])
    ensures var det := cat.detections(page, cs[i].oid);
      Gather(cat, page, cs[..i + 1])
        == if det.Some? && det.value != [] then Batch(rows + TagAll(cs[i], det.value), oids + [cs[i].oid])
           else Batch(rows, oids)
  {
    GatherSnoc(cat, page, cs, i);
    var det := cat.detections(page, cs[i].oid);
    if !(det.Some? && det.value != []) {
      assert Contribution(cat, page, cs[i]) == NoBatch;
      assert rows + [] == rows && oids + [] == oids;
    }
  }

  /** fetch_batch: one page, filtered against `memo`, assembled candidate by candidate. */
  method FetchBatch(cat: Catalog, page: int, memo: set<Oid>) returns (b: Batch)
    ensures b == FetchSpec(cat, page, memo)
    ensures forall i :: 0 <= i < |b.oids| ==> b.oids[i] !in memo
    ensures forall i :: 0 <= i < |b.rows| ==> b.rows[i].oid in b.oids
    ensures b.rows == [] <==> b.oids == []
  {
    FetchFacts(cat, page, memo);
    var query := PageQuery(cat, page);
    if query.None? {
      // The page query itself failed.
      return NoBatch;
    }
    var candidates := query.value;
    if candidates == [] {
      return NoBatch;
    }
    var pending := Unprocessed(candidates, memo);
    if pending == [] {
      return NoBatch;
    }
    var rows: seq<Detection> := [];
    var oids: seq<Oid> := [];
    for i := 0 to |pending|
      invariant Batch(rows, oids) == Gather(cat, page, pending[..i])
    {
      var c := pending[i];
      var det := cat.detections(page, c.oid);
      GatherStep(cat, page, pending, i, rows, oids);
      if det.Some? && det.value != [] {
        rows := rows + TagAll(c, det.value);
        oids := oids + [c.oid];
      }
    }
    assert pending[..|pending|] == pending;
    if oids != [] {
      b := Batch(rows, oids);
    } else {
      b := NoBatch;
    }
  }
}
