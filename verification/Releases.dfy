/**
 libex_core/audible/releases.py: the paged walk over one catalog query, newest
 first, that stops as early as it can.  Audible's side is a catalog served in
 pages of 50 that ends with a short page, an empty one, or by repeating its last.
 */
module Releases {
  import opened Common
  import opened Json

  const RELEASE_PAGE_SIZE: nat := 50

  /** A normalized book: "" where Audible sent no ASIN, None where no date parses. */
  datatype Book = Book(asin: string, date: Option<int>, rest: nat)

  /** What normalizing one product came to. */
  datatype Outcome = Failed(error: nat) | Normalized(book: Book)

  /** A raw product, whether filter_products keeps it, and its outcome if so. */
  datatype Product = Product(rawAsin: Option<string>, servable: bool, outcome: Outcome)

  datatype Gates = Gates(collect: int -> bool, shouldStop: int -> bool)

  datatype Answer = Books(books: seq<Book>) | Raised(error: nat)

  // ---------------------------------------------------------------- the two windows

  const DAY: nat := 86400000000

  function NewReleasesGates(days: int, now: int): Gates {
    var start := now - days * DAY;
    Gates(d => start <= d <= now, d => d < start)
  }

  function ComingSoonGates(days: int, now: int): Gates {
    var end := now + days * DAY;
    Gates(d => now < d <= end, d => d <= now)
  }

  /** Past a date that stops the walk, nothing as old is wanted. */
  ghost predicate Fit(gates: Gates) {
    forall d, older | older <= d && gates.shouldStop(d) :: !gates.collect(older)
  }

  lemma BothWindowsFit(days: int, now: int)
    ensures Fit(NewReleasesGates(days, now)) && Fit(ComingSoonGates(days, now))
  {
  }

  predicate NewRelease(days: int, now: int, d: int) {
    NewReleasesGates(days, now).collect(d)
  }

  predicate ComingSoon(days: int, now: int, d: int) {
    ComingSoonGates(days, now).collect(d)
  }

  /** The windows meet at now and share no date: together they are the days within
      `days` of now, what is out in one and what is not in the other. */
  lemma WindowsMeet(days: nat, now: int, d: int)
    ensures !(NewRelease(days, now, d) && ComingSoon(days, now, d))
    ensures NewRelease(days, now, d) || ComingSoon(days, now, d) <==> now - days * 86400000000 <= d <= now + days * 86400000000
    ensures NewRelease(days, now, d) ==> d <= now
    ensures ComingSoon(days, now, d) ==> d > now
  {
  }

  /** Neither walk stops sooner or later than it must: at the first date no date up to
      which is wanted. */
  lemma StopsWhenNothingIsLeft(days: nat, now: int, d: int)
    requires days > 0
    ensures NewReleasesGates(days, now).shouldStop(d) <==> forall older | older <= d :: !NewRelease(days, now, older)
    ensures ComingSoonGates(days, now).shouldStop(d) <==> forall older | older <= d :: !ComingSoon(days, now, older)
  {
    var start := now - days * DAY;
    assert NewRelease(days, now, start) && ComingSoon(days, now, now + 1);
    if start <= d { assert start <= d && NewRelease(days, now, start); }
    if now < d { assert now + 1 <= d && ComingSoon(days, now, now + 1); }
  }

  // ---------------------------------------------------------------- what Audible serves

  /** What a page past the end comes back as. */
  datatype End = ServesNothing | RepeatsLastPage

  datatype Site = Site(catalog: seq<Product>, end: End)

  function Slice(catalog: seq<Product>, page: nat): seq<Product> {
    var start := RELEASE_PAGE_SIZE * page;
    if |catalog| <= start then []
    else if |catalog| < start + RELEASE_PAGE_SIZE then catalog[start..]
    else catalog[start..start + RELEASE_PAGE_SIZE]
  }

  function Serve(site: Site, page: nat): seq<Product> {
    if site.catalog != [] && site.end == RepeatsLastPage && |site.catalog| <= RELEASE_PAGE_SIZE * page
    then Slice(site.catalog, (|site.catalog| - 1) / RELEASE_PAGE_SIZE)
    else Slice(site.catalog, page)
  }

  function RawAsins(page: seq<Product>): (r: seq<Option<string>>)
    ensures |r| == |page|
  {
    seq(|page|, i requires 0 <= i < |page| => page[i].rawAsin)
  }

  /** The fifty products after the first 50k have the ASINs of the fifty, or the rest,
      that follow them. */
  ghost predicate RepeatsAt(catalog: seq<Product>, k: nat)
    requires 50 * (k + 1) < |catalog|
  {
    var from, end := 50 * k + 50, if 50 * k + 100 <= |catalog| then 50 * k + 100 else |catalog|;
    RawAsins(catalog[from - 50..from]) == RawAsins(catalog[from..end])
  }

  /** Inside the catalog no page repeats the ASINs of the one before it. */
  ghost predicate PagesDiffer(catalog: seq<Product>) {
    forall k: nat | 50 * (k + 1) < |catalog| :: !RepeatsAt(catalog, k)
  }

  lemma RepeatsIff(catalog: seq<Product>, k: nat)
    requires 50 * (k + 1) < |catalog|
    ensures RepeatsAt(catalog, k) <==> RawAsins(Slice(catalog, k)) == RawAsins(Slice(catalog, k + 1))
  {
    hide RawAsins;
  }

  /** The catalog up to the first page after this one that repeats the one before it. */
  function VisibleFrom(catalog: seq<Product>, page: nat): (r: seq<Product>)
    ensures r <= catalog
    decreases |catalog| - RELEASE_PAGE_SIZE * page
  {
    if |catalog| <= RELEASE_PAGE_SIZE * (page + 1) then catalog
    else if RawAsins(Slice(catalog, page)) == RawAsins(Slice(catalog, page + 1)) then catalog[..RELEASE_PAGE_SIZE * (page + 1)]
    else VisibleFrom(catalog, page + 1)
  }

  /** What a walk that ends at a repeated page can come to see. */
  function Visible(catalog: seq<Product>): seq<Product> {
    VisibleFrom(catalog, 0)
  }

  lemma {:induction false} VisibleBeyond(catalog: seq<Product>, page: nat)
    ensures |catalog| > RELEASE_PAGE_SIZE * page ==>
              |VisibleFrom(catalog, page)| >= |catalog| || |VisibleFrom(catalog, page)| >= RELEASE_PAGE_SIZE * (page + 1)
    decreases |catalog| - RELEASE_PAGE_SIZE * page
  {
    if |catalog| > RELEASE_PAGE_SIZE * (page + 1) {
      VisibleBeyond(catalog, page + 1);
    }
  }

  /** It is the whole catalog if and only if no page of it repeats the one before. */
  lemma {:induction false} AllVisibleFrom(catalog: seq<Product>, page: nat)
    ensures VisibleFrom(catalog, page) == catalog <==>
            forall k: nat | k >= page && RELEASE_PAGE_SIZE * (k + 1) < |catalog| :: RawAsins(Slice(catalog, k)) != RawAsins(Slice(catalog, k + 1))
    decreases |catalog| - RELEASE_PAGE_SIZE * page
  {
    hide RawAsins, Slice;
    if |catalog| > RELEASE_PAGE_SIZE * (page + 1) && RawAsins(Slice(catalog, page)) != RawAsins(Slice(catalog, page + 1)) {
      AllVisibleFrom(catalog, page + 1);
    }
  }

  lemma AllVisibleIff(catalog: seq<Product>)
    ensures Visible(catalog) == catalog <==> PagesDiffer(catalog)
  {
    hide RepeatsAt, RawAsins, Slice, VisibleFrom;
    AllVisibleFrom(catalog, 0);
    forall k: nat | 50 * (k + 1) < |catalog|
      ensures RepeatsAt(catalog, k) <==> RawAsins(Slice(catalog, k)) == RawAsins(Slice(catalog, k + 1))
    {
      RepeatsIff(catalog, k);
    }
  }

  function DateOf(p: Product): Option<int> {
    if p.servable && p.outcome.Normalized? then p.outcome.book.date else None
  }

  ghost predicate NewestFirst(catalog: seq<Product>) {
    forall i, j | 0 <= i < j < |catalog| && DateOf(catalog[i]).Some? && DateOf(catalog[j]).Some? ::
      DateOf(catalog[j]).value <= DateOf(catalog[i]).value
  }

  // ---------------------------------------------------------------- the plain filter

  predicate Accepted(gates: Gates, p: Product) {
    DateOf(p).Some? && gates.collect(DateOf(p).value) && p.outcome.book.asin != ""
  }

  /** `collected` after these products, whatever their order: a later book of the
      same ASIN takes the earlier one's place. */
  function Gather(gates: Gates, base: seq<Pair<Book>>, ps: seq<Product>): seq<Pair<Book>> {
    if ps == [] then base
    else
      var rest, last := Gather(gates, base, ps[..|ps| - 1]), ps[|ps| - 1];
      if Accepted(gates, last) then Put(rest, last.outcome.book.asin, last.outcome.book) else rest
  }

  function Servable(ps: seq<Product>): (r: seq<Product>)
    ensures forall p | p in r :: p.servable
  {
    if ps == [] then []
    else
      var last := ps[|ps| - 1];
      Servable(ps[..|ps| - 1]) + (if last.servable then [last] else [])
  }

  function Failures(ps: seq<Product>): seq<nat> {
    if ps == [] then []
    else
      var last := ps[|ps| - 1];
      Failures(ps[..|ps| - 1]) + (if last.outcome.Failed? then [last.outcome.error] else [])
  }

  /** The answer of the whole catalog, filtered with no early stop: the accepted
      books, one per ASIN; or the first failure when something failed and
      nothing normalized. */
  function Filtered(gates: Gates, catalog: seq<Product>): Answer {
    var failures := Failures(Servable(catalog));
    if failures != [] && |failures| == |Servable(catalog)| then Raised(failures[0])
    else Books(Values(Gather(gates, [], catalog)))
  }

  /** An accepted product with this ASIN. */
  ghost predicate AcceptedAs(gates: Gates, ps: seq<Product>, i: int, asin: string) {
    0 <= i < |ps| && Accepted(gates, ps[i]) && ps[i].outcome.book.asin == asin
  }

  /** The filter's ASINs: exactly those accepted, each once. */
  lemma {:induction false} GatherExactly(gates: Gates, ps: seq<Product>)
    ensures DistinctKeys(Gather(gates, [], ps))
    ensures forall asin :: HasKey(Gather(gates, [], ps), asin) <==> exists i :: AcceptedAs(gates, ps, i, asin)
  {
    if ps != [] {
      var n := |ps| - 1;
      var before, last := ps[..n], ps[n];
      GatherExactly(gates, before);
      var rest := Gather(gates, [], before);
      if Accepted(gates, last) { PutEntries(rest, last.outcome.book.asin, last.outcome.book); }
      forall asin ensures HasKey(Gather(gates, [], ps), asin) <==> exists i :: AcceptedAs(gates, ps, i, asin) {
        AcceptedLater(gates, ps, asin);
        hide AcceptedAs, HasKey;
      }
    }
  }

  lemma AcceptedLater(gates: Gates, ps: seq<Product>, asin: string)
    requires ps != []
    ensures var n := |ps| - 1;
            (exists i :: AcceptedAs(gates, ps, i, asin)) <==>
            (exists i :: AcceptedAs(gates, ps[..n], i, asin)) || (Accepted(gates, ps[n]) && ps[n].outcome.book.asin == asin)
  {
    var n := |ps| - 1;
    if i :| AcceptedAs(gates, ps[..n], i, asin) { assert AcceptedAs(gates, ps, i, asin); }
    if i :| AcceptedAs(gates, ps, i, asin) { assert i == n || AcceptedAs(gates, ps[..n], i, asin); }
    assert Accepted(gates, ps[n]) && ps[n].outcome.book.asin == asin ==> AcceptedAs(gates, ps, n, asin);
  }

  /** Of the books accepted under one ASIN, the last is kept. */
  lemma {:induction false} GatherKeepsLast(gates: Gates, ps: seq<Product>, i: int, asin: string)
    requires AcceptedAs(gates, ps, i, asin) && forall j | i < j :: !AcceptedAs(gates, ps, j, asin)
    ensures Pair(asin, ps[i].outcome.book) in Gather(gates, [], ps)
  {
    var n := |ps| - 1;
    GatherExactly(gates, ps[..n]);
    if Accepted(gates, ps[n]) { PutEntries(Gather(gates, [], ps[..n]), ps[n].outcome.book.asin, ps[n].outcome.book); }
    if i < n {
      assert !AcceptedAs(gates, ps, n, asin) && AcceptedAs(gates, ps[..n], i, asin);
      forall j | i < j ensures !AcceptedAs(gates, ps[..n], j, asin) {
        assert !AcceptedAs(gates, ps, j, asin);
      }
      GatherKeepsLast(gates, ps[..n], i, asin);
    }
  }

  lemma {:induction false} GatherKeyed(gates: Gates, ps: seq<Product>)
    ensures forall p | p in Gather(gates, [], ps) :: p.key == p.value.asin
  {
    if ps != [] {
      var n := |ps| - 1;
      GatherKeyed(gates, ps[..n]);
      if Accepted(gates, ps[n]) {
        GatherExactly(gates, ps[..n]);
        PutEntries(Gather(gates, [], ps[..n]), ps[n].outcome.book.asin, ps[n].outcome.book);
      }
    }
  }

  /** A book of this ASIN among these. */
  ghost predicate Lists(books: seq<Book>, asin: string) {
    exists k :: 0 <= k < |books| && books[k].asin == asin
  }

  /** The answer lists exactly the accepted ASINs, no two books share one, and it
      is an error exactly when something servable was there and all of it failed. */
  lemma AnswerExactly(gates: Gates, catalog: seq<Product>)
    ensures var answer := Filtered(gates, catalog);
            && (answer.Raised? <==> (exists p :: p in catalog && p.servable) &&
                                    (forall p | p in catalog && p.servable :: p.outcome.Failed?))
            && (answer.Books? ==>
                  && (forall asin :: Lists(answer.books, asin) <==> exists i :: AcceptedAs(gates, catalog, i, asin))
                  && (forall j, k | 0 <= j < k < |answer.books| :: answer.books[j].asin != answer.books[k].asin))
  {
    AnswerRaisedExactly(gates, catalog);
    if Filtered(gates, catalog).Books? {
      var found := Gather(gates, [], catalog);
      GatherExactly(gates, catalog);
      GatherKeyed(gates, catalog);
      var books := Values(found);
      assert forall k | 0 <= k < |found| :: found[k] in found && books[k].asin == found[k].key;
      forall asin ensures Lists(books, asin) <==> HasKey(found, asin) {
        if k :| 0 <= k < |books| && books[k].asin == asin { assert found[k].key == asin; }
        if k :| 0 <= k < |found| && found[k].key == asin { assert books[k].asin == asin; }
      }
    }
  }

  lemma AnswerRaisedExactly(gates: Gates, catalog: seq<Product>)
    ensures Filtered(gates, catalog).Raised? <==>
            (exists p :: p in catalog && p.servable) && (forall p | p in catalog && p.servable :: p.outcome.Failed?)
  {
    var servable := Servable(catalog);
    FailuresBound(servable);
    forall p ensures p in servable <==> p in catalog && p.servable {
      ServableHas(catalog, p);
    }
    if servable != [] {
      assert servable[0] in servable;
    }
    if forall p | p in servable :: p.outcome.Failed? {
      AllFail(servable);
    }
  }

  lemma {:induction false} AllFail(ps: seq<Product>)
    requires forall p | p in ps :: p.outcome.Failed?
    ensures |Failures(ps)| == |ps|
  {
    if ps != [] {
      AllFail(ps[..|ps| - 1]);
      assert ps[|ps| - 1] in ps;
    }
  }

  // ---------------------------------------------------------------- filtering in pieces

  lemma {:induction false} GatherConcat(gates: Gates, base: seq<Pair<Book>>, a: seq<Product>, b: seq<Product>)
    ensures Gather(gates, base, a + b) == Gather(gates, Gather(gates, base, a), b)
    decreases |b|
  {
    if b == [] {
      assert a + b == a;
    } else {
      var n := |b| - 1;
      GatherConcat(gates, base, a, b[..n]);
      assert (a + b)[..|a + b| - 1] == a + b[..n];
    }
  }

  lemma {:induction false} GatherServable(gates: Gates, base: seq<Pair<Book>>, ps: seq<Product>)
    ensures Gather(gates, base, Servable(ps)) == Gather(gates, base, ps)
  {
    if ps != [] {
      var n := |ps| - 1;
      GatherServable(gates, base, ps[..n]);
      if ps[n].servable {
        assert Servable(ps)[..|Servable(ps)| - 1] == Servable(ps[..n]);
      } else {
        assert Servable(ps) == Servable(ps[..n]);
      }
    }
  }

  lemma {:induction false} GatherNothing(gates: Gates, base: seq<Pair<Book>>, ps: seq<Product>)
    requires forall p | p in ps :: !Accepted(gates, p)
    ensures Gather(gates, base, ps) == base
  {
    if ps != [] {
      GatherNothing(gates, base, ps[..|ps| - 1]);
      assert ps[|ps| - 1] in ps;
    }
  }

  lemma {:induction false} ServableConcat(a: seq<Product>, b: seq<Product>)
    ensures Servable(a + b) == Servable(a) + Servable(b)
    decreases |b|
  {
    if b == [] {
      assert a + b == a;
    } else {
      var n := |b| - 1;
      ServableConcat(a, b[..n]);
      LastJoined(a, b);
      assert Servable(a + b) == Servable((a + b)[..|a| + n]) + (if b[n].servable then [b[n]] else []);
    }
  }

  lemma LastJoined(a: seq<Product>, b: seq<Product>)
    requires b != []
    ensures (a + b)[..|a + b| - 1] == a + b[..|b| - 1] && (a + b)[|a + b| - 1] == b[|b| - 1]
  {
  }

  lemma {:induction false} FailuresConcat(a: seq<Product>, b: seq<Product>)
    ensures Failures(a + b) == Failures(a) + Failures(b)
    decreases |b|
  {
    if b == [] {
      assert a + b == a;
    } else {
      FailuresConcat(a, b[..|b| - 1]);
      LastJoined(a, b);
    }
  }

  lemma {:induction false} FailuresBound(ps: seq<Product>)
    ensures |Failures(ps)| <= |ps|
    ensures |Failures(ps)| == |ps| ==> forall p | p in ps :: p.outcome.Failed?
  {
    if ps != [] {
      FailuresBound(ps[..|ps| - 1]);
      assert ps == ps[..|ps| - 1] + [ps[|ps| - 1]];
    }
  }

  lemma {:induction false} ServableHas(ps: seq<Product>, p: Product)
    ensures p in Servable(ps) <==> p in ps && p.servable
  {
    if ps != [] {
      ServableHas(ps[..|ps| - 1], p);
      assert ps == ps[..|ps| - 1] + [ps[|ps| - 1]];
    }
  }

  // ---------------------------------------------------------------- the walk

  predicate Stops(gates: Gates, p: Product) {
    DateOf(p).Some? && gates.shouldStop(DateOf(p).value)
  }

  ghost predicate NoneStops(gates: Gates, ps: seq<Product>) {
    forall p | p in ps :: !Stops(gates, p)
  }

  /** How many products come before the first that stops the walk. */
  function UntilStop(gates: Gates, ps: seq<Product>): (n: nat)
    ensures n <= |ps| && (n < |ps| ==> Stops(gates, ps[n])) && forall i | 0 <= i < n :: !Stops(gates, ps[i])
  {
    if ps == [] || Stops(gates, ps[0]) then 0 else 1 + UntilStop(gates, ps[1..])
  }

  lemma {:induction false} FirstStop(gates: Gates, ps: seq<Product>, n: nat)
    requires n <= |ps| && (n < |ps| ==> Stops(gates, ps[n])) && forall i | 0 <= i < n :: !Stops(gates, ps[i])
    ensures UntilStop(gates, ps) == n
  {
    hide Stops;
    if n > 0 {
      assert !Stops(gates, ps[0]);
      FirstStop(gates, ps[1..], n - 1);
    }
  }

  /** One page's outcomes, in order, up to the first that stops the walk. */
  method CollectPage(gates: Gates, products: seq<Product>, base: seq<Pair<Book>>) returns (collected: seq<Pair<Book>>, stop: bool)
    requires forall p | p in products :: p.servable
    ensures collected == Gather(gates, base, products[..UntilStop(gates, products)])
    ensures stop <==> UntilStop(gates, products) < |products|
  {
    collected, stop := base, false;
    var i := 0;
    while i < |products|
      invariant 0 <= i <= |products|
      invariant collected == Gather(gates, base, products[..i])
      invariant forall j | 0 <= j < i :: !Stops(gates, products[j])
    {
      var p := products[i];
      assert products[..i + 1][..i] == products[..i];
      if p.outcome.Normalized? && p.outcome.book.date.Some? {
        var date := p.outcome.book.date.value;
        if gates.shouldStop(date) {
          FirstStop(gates, products, i);
          return collected, true;
        }
        if gates.collect(date) {
          var asin := p.outcome.book.asin;
          if asin != "" {
            collected := Put(collected, asin, p.outcome.book);
          }
        }
      }
      i := i + 1;
    }
    FirstStop(gates, products, i);
  }

  /** What walking the first so many pages leaves, none of them stopping it. */
  ghost predicate Walked(gates: Gates, read: seq<Product>, collected: seq<Pair<Book>>, walked: nat, failures: nat, firstError: Option<nat>) {
    && NoneStops(gates, read)
    && collected == Gather(gates, [], read)
    && Tallied(read, walked, failures, firstError)
  }

  ghost predicate Tallied(read: seq<Product>, walked: nat, failures: nat, firstError: Option<nat>) {
    && walked == |Servable(read)| && failures == |Failures(Servable(read))|
    && firstError == (if failures == 0 then None else Some(Failures(Servable(read))[0]))
  }

  lemma TallyPage(read: seq<Product>, page: seq<Product>, walked: nat, failures: nat, firstError: Option<nat>)
    requires Tallied(read, walked, failures, firstError)
    ensures var failed := Failures(Servable(page));
            Tallied(read + page, walked + |Servable(page)|, failures + |failed|,
                    if firstError.None? && failed != [] then Some(failed[0]) else firstError)
  {
    ServableConcat(read, page);
    FailuresConcat(Servable(read), Servable(page));
  }

  /** A page read to its end leaves the walk one page further. */
  lemma PageRead(gates: Gates, read: seq<Product>, page: seq<Product>)
    requires NoneStops(gates, read) && NoneStops(gates, Servable(page))
    ensures NoneStops(gates, read + page)
    ensures Gather(gates, [], read + page) == Gather(gates, Gather(gates, [], read), Servable(page))
  {
    GatherConcat(gates, [], read, page);
    GatherServable(gates, Gather(gates, [], read), page);
    forall p | p in read + page ensures !Stops(gates, p) {
      ServableHas(page, p);
    }
  }

  /** Past a stopping product nothing as new is left to accept. */
  lemma NothingAfter(gates: Gates, all: seq<Product>, at: nat)
    requires NewestFirst(all) && Fit(gates) && at < |all| && Stops(gates, all[at])
    ensures forall p | p in all[at..] :: !Accepted(gates, p)
  {
    forall p | p in all[at..] ensures !Accepted(gates, p) {
      var j :| at <= j < |all| && all[j] == p;
    }
  }

  /** So the books gathered up to it are all there are. */
  lemma StopGathersAll(gates: Gates, base: seq<Pair<Book>>, all: seq<Product>, at: nat)
    requires NewestFirst(all) && Fit(gates) && at < |all| && Stops(gates, all[at])
    ensures Gather(gates, base, all[..at]) == Gather(gates, base, all)
  {
    NothingAfter(gates, all, at);
    assert all == all[..at] + all[at..];
    hide Gather, NewestFirst, Fit, Stops, Accepted;
    GatherConcat(gates, base, all[..at], all[at..]);
    GatherNothing(gates, Gather(gates, base, all[..at]), all[at..]);
  }

  /** And something normalized, so the answer is no error, neither of what was
      read nor of the whole catalog. */
  lemma StopIsNoError(gates: Gates, ps: seq<Product>, at: nat)
    requires at < |Servable(ps)| && Stops(gates, Servable(ps)[at])
    ensures |Failures(Servable(ps))| != |Servable(ps)|
  {
    FailuresBound(Servable(ps));
    assert Servable(ps)[at] in Servable(ps);
  }

  lemma StopLosesNothing(gates: Gates, catalog: seq<Product>, read: seq<Product>, page: seq<Product>, rest: seq<Product>, taken: nat)
    requires catalog == read + page + rest && NewestFirst(catalog) && Fit(gates)
    requires taken < |Servable(page)| && Stops(gates, Servable(page)[taken])
    ensures Gather(gates, Gather(gates, [], read), Servable(page)[..taken]) == Gather(gates, [], catalog)
    ensures |Failures(Servable(catalog))| != |Servable(catalog)|
    ensures |Failures(Servable(read + page))| != |Servable(read + page)|
  {
    hide Gather, Servable, NewestFirst, Fit, Stops, Failures;
    ServableConcat(read + page, rest);
    ServableConcat(read, page);
    ServableSorted(catalog);
    var all, served := Servable(catalog), Servable(page);
    var at := |Servable(read)| + taken;
    assert all[at] == served[taken] && Servable(read + page)[at] == served[taken];
    assert all[..at] == Servable(read) + served[..taken];
    StopGathersAll(gates, [], all, at);
    GatherConcat(gates, [], Servable(read), served[..taken]);
    GatherServable(gates, [], catalog);
    GatherServable(gates, [], read);
    StopIsNoError(gates, catalog, at);
    StopIsNoError(gates, read + page, at);
  }

  lemma {:induction false} ServableSorted(ps: seq<Product>)
    requires NewestFirst(ps)
    ensures NewestFirst(Servable(ps))
  {
    if ps != [] {
      var n := |ps| - 1;
      ServableSorted(ps[..n]);
      var rest, all := Servable(ps[..n]), Servable(ps);
      forall i, j | 0 <= i < j < |all| && DateOf(all[i]).Some? && DateOf(all[j]).Some?
        ensures DateOf(all[j]).value <= DateOf(all[i]).value
      {
        if j == |rest| {
          ServableHas(ps[..n], rest[i]);
          var k :| 0 <= k < n && ps[..n][k] == rest[i];
          assert ps[k] == all[i] && ps[n] == all[j];
        }
      }
    }
  }

  /** What the walk counts on: Audible's order, as far as it can see, and gates that
      fit each other. */
  ghost predicate Served(site: Site, gates: Gates) {
    NewestFirst(Visible(site.catalog)) && Fit(gates)
  }

  function Verdict(collected: seq<Pair<Book>>, walked: nat, failures: nat, firstError: Option<nat>): Answer {
    if firstError.Some? && failures == walked then Raised(firstError.value) else Books(Values(collected))
  }

  lemma AllRead(gates: Gates, catalog: seq<Product>, collected: seq<Pair<Book>>, walked: nat, failures: nat, firstError: Option<nat>)
    requires Walked(gates, catalog, collected, walked, failures, firstError)
    ensures Verdict(collected, walked, failures, firstError) == Filtered(gates, catalog)
  {
    hide Gather, Servable, Failures, NoneStops;
  }

  lemma StoppedEarly(catalog: seq<Product>, gates: Gates, read: seq<Product>, page: seq<Product>, taken: nat,
                     collected: seq<Pair<Book>>, walked: nat, failures: nat, firstError: Option<nat>)
    requires NewestFirst(catalog) && Fit(gates) && read + page <= catalog
    requires taken < |Servable(page)| && Stops(gates, Servable(page)[taken])
    requires collected == Gather(gates, Gather(gates, [], read), Servable(page)[..taken])
    requires Tallied(read + page, walked, failures, firstError)
    ensures Verdict(collected, walked, failures, firstError) == Filtered(gates, catalog)
  {
    hide Gather, Servable, Failures, NewestFirst, Fit, Stops, Values;
    var prefix := read + page;
    assert failures == |Failures(Servable(prefix))| && walked == |Servable(prefix)|;
    var rest := catalog[|prefix|..];
    assert catalog == prefix + rest;
    hide Tallied;
    StopLosesNothing(gates, catalog, read, page, rest, taken);
    assert failures != walked;
  }

  /** walk_catalog.  On a catalog served newest first, for a window whose gates fit
      each other, it answers what filtering all of the catalog before the first
      repeated page would, which is all of it if no page repeats another. */
  method WalkCatalog(site: Site, gates: Gates) returns (answer: Answer)
    ensures Served(site, gates) ==> answer == Filtered(gates, Visible(site.catalog))
  {
    hide Gather, Servable, Failures, Slice, Serve, NewestFirst, Visible, VisibleFrom, Fit, Tallied, NoneStops, Stops, Filtered;
    var catalog := site.catalog;
    var collected: seq<Pair<Book>> := [];
    var page: nat := 0;
    var prevAsins: Option<seq<Option<string>>> := None;
    var walked: nat, failures: nat := 0, 0;
    var firstError: Option<nat> := None;
    NothingWalked(gates);
    VisibleAtFirst(catalog);
    assert catalog[..0] == [];
    while true
      invariant RELEASE_PAGE_SIZE * page <= |catalog|
      invariant prevAsins == if page == 0 then None else Some(RawAsins(Slice(catalog, page - 1)))
      invariant Visible(catalog) == VisibleFrom(catalog, if page == 0 then 0 else page - 1)
      invariant Walked(gates, catalog[..RELEASE_PAGE_SIZE * page], collected, walked, failures, firstError)
      decreases |catalog| - RELEASE_PAGE_SIZE * page
    {
      ghost var read := catalog[..RELEASE_PAGE_SIZE * page];
      var rawPage := Serve(site, page);
      var products := Servable(rawPage);
      if rawPage == [] {
        NothingServed(site, page);
        AllRead(gates, read, collected, walked, failures, firstError);
        break;
      }
      var pageAsins := RawAsins(rawPage);
      if Some(pageAsins) == prevAsins {
        WallReached(site, page);
        AllRead(gates, read, collected, walked, failures, firstError);
        break;
      }
      InsideTheCatalog(site, page);
      PageIsVisible(catalog, page);
      prevAsins := Some(pageAsins);
      var failed := Failures(products);
      TallyPage(read, rawPage, walked, failures, firstError);
      if firstError.None? && failed != [] {
        firstError := Some(failed[0]);
      }
      walked, failures := walked + |products|, failures + |failed|;
      var stop: bool;
      collected, stop := CollectPage(gates, products, collected);
      ghost var taken := UntilStop(gates, products);
      if stop {
        if Served(site, gates) {
          StoppedEarly(Visible(catalog), gates, read, rawPage, taken, collected, walked, failures, firstError);
        }
        break;
      }
      assert products[..taken] == products;
      NothingStopped(gates, products);
      PageRead(gates, read, rawPage);
      if |rawPage| < RELEASE_PAGE_SIZE {
        assert read + rawPage == catalog;
        ShortIsVisible(catalog, page);
        AllRead(gates, catalog, collected, walked, failures, firstError);
        break;
      }
      page := page + 1;
      assert catalog[..RELEASE_PAGE_SIZE * page] == read + rawPage;
    }
    answer := if firstError.Some? && failures == walked then Raised(firstError.value) else Books(Values(collected));
  }

  lemma NothingStopped(gates: Gates, ps: seq<Product>)
    requires UntilStop(gates, ps) == |ps|
    ensures NoneStops(gates, ps)
  {
  }

  lemma NothingWalked(gates: Gates)
    ensures Walked(gates, [], [], 0, 0, None)
  {
  }

  /** Only past the catalog's end does an empty page come. */
  lemma NothingServed(site: Site, page: nat)
    requires RELEASE_PAGE_SIZE * page <= |site.catalog| && Serve(site, page) == []
    ensures site.catalog[..RELEASE_PAGE_SIZE * page] == site.catalog == VisibleFrom(site.catalog, if page == 0 then 0 else page - 1)
  {
  }

  lemma ShortIsVisible(catalog: seq<Product>, page: nat)
    requires |catalog| <= RELEASE_PAGE_SIZE * (page + 1)
    ensures VisibleFrom(catalog, page) == catalog
  {
  }

  /** A served page that does not repeat its predecessor is the catalog's own. */
  lemma InsideTheCatalog(site: Site, page: nat)
    requires RELEASE_PAGE_SIZE * page <= |site.catalog|
    requires Serve(site, page) != []
    requires page > 0 ==> RawAsins(Serve(site, page)) != RawAsins(Slice(site.catalog, page - 1))
    ensures var n, served := RELEASE_PAGE_SIZE * page, Serve(site, page);
            && served == Slice(site.catalog, page) && n + |served| <= |site.catalog|
            && site.catalog[..n] + served == site.catalog[..n + |served|]
            && site.catalog[..n] + served <= site.catalog
            && (|served| < RELEASE_PAGE_SIZE ==> n + |served| == |site.catalog|)
            && |served| <= RELEASE_PAGE_SIZE
  {
  }

  lemma VisibleAtFirst(catalog: seq<Product>)
    ensures Visible(catalog) == VisibleFrom(catalog, 0)
  {
  }

  /** A page that does not repeat its predecessor can be seen. */
  lemma PageIsVisible(catalog: seq<Product>, page: nat)
    requires RELEASE_PAGE_SIZE * page < |catalog|
    requires page > 0 ==> RawAsins(Slice(catalog, page)) != RawAsins(Slice(catalog, page - 1))
    ensures VisibleFrom(catalog, if page == 0 then 0 else page - 1) == VisibleFrom(catalog, page)
    ensures catalog[..RELEASE_PAGE_SIZE * page] + Slice(catalog, page) <= VisibleFrom(catalog, page)
  {
    hide RawAsins, Slice, VisibleFrom;
    VisibleStep(catalog, page);
    if page > 0 { VisibleStep(catalog, page - 1); }
    VisibleBeyond(catalog, page);
    SliceAfter(catalog, page);
  }

  lemma VisibleStep(catalog: seq<Product>, page: nat)
    ensures VisibleFrom(catalog, page) <= catalog
    ensures RELEASE_PAGE_SIZE * (page + 1) < |catalog| && RawAsins(Slice(catalog, page)) != RawAsins(Slice(catalog, page + 1)) ==>
              VisibleFrom(catalog, page) == VisibleFrom(catalog, page + 1)
  {
    hide RawAsins, Slice;
  }

  lemma SliceAfter(catalog: seq<Product>, page: nat)
    requires RELEASE_PAGE_SIZE * page < |catalog|
    ensures catalog[..RELEASE_PAGE_SIZE * page] + Slice(catalog, page) ==
            if |catalog| <= RELEASE_PAGE_SIZE * (page + 1) then catalog else catalog[..RELEASE_PAGE_SIZE * (page + 1)]
  {
  }

  /** A repeated page ends what can be seen. */
  lemma WallReached(site: Site, page: nat)
    requires RELEASE_PAGE_SIZE * page <= |site.catalog|
    requires page > 0 && RawAsins(Serve(site, page)) == RawAsins(Slice(site.catalog, page - 1))
    ensures VisibleFrom(site.catalog, page - 1) == site.catalog[..RELEASE_PAGE_SIZE * page]
  {
  }

  // ---------------------------------------------------------------- the two answers

  /** A servable book with this ASIN, dated from one moment to another. */
  ghost predicate DatedIn(ps: seq<Product>, asin: string, from: int, to: int) {
    exists p :: p in ps && p.servable && p.outcome.Normalized? && p.outcome.book.date.Some? &&
                from <= p.outcome.book.date.value <= to && p.outcome.book.asin == asin != ""
  }

  /** The first servable product failed to normalize, with this error. */
  ghost predicate FailedFirst(ps: seq<Product>, error: nat) {
    exists i :: 0 <= i < |ps| && ps[i].servable && ps[i].outcome == Failed(error) && forall j | 0 <= j < i :: !ps[j].servable
  }

  ghost predicate IsFirstServable(ps: seq<Product>, i: int, p: Product) {
    0 <= i < |ps| && ps[i] == p && p.servable && forall j | 0 <= j < i :: !ps[j].servable
  }

  lemma StillFirst(ps: seq<Product>, i: int, p: Product)
    requires ps != [] && IsFirstServable(ps[..|ps| - 1], i, p)
    ensures IsFirstServable(ps, i, p)
  {
  }

  lemma FirstAtLast(ps: seq<Product>)
    requires ps != [] && ps[|ps| - 1].servable && forall j | 0 <= j < |ps| - 1 :: !ps[j].servable
    ensures IsFirstServable(ps, |ps| - 1, ps[|ps| - 1])
  {
  }

  lemma {:induction false} FirstServable(ps: seq<Product>)
    ensures Servable(ps) == [] ==> forall j | 0 <= j < |ps| :: !ps[j].servable
    ensures Servable(ps) != [] ==> exists i :: IsFirstServable(ps, i, Servable(ps)[0])
  {
    hide IsFirstServable;
    if ps != [] {
      var less, last := ps[..|ps| - 1], ps[|ps| - 1];
      FirstServable(less);
      if Servable(less) != [] {
        var i :| IsFirstServable(less, i, Servable(less)[0]);
        StillFirst(ps, i, Servable(less)[0]);
        assert Servable(ps)[0] == Servable(less)[0];
      } else if last.servable {
        assert forall j | 0 <= j < |less| :: ps[j] == less[j];
        FirstAtLast(ps);
        assert Servable(ps) == [last];
        assert IsFirstServable(ps, |ps| - 1, Servable(ps)[0]);
      } else {
        assert forall j | 0 <= j < |less| :: ps[j] == less[j];
      }
    }
  }

  lemma {:induction false} FailureHead(ps: seq<Product>)
    requires ps != [] && ps[0].outcome.Failed?
    ensures Failures(ps) != [] && Failures(ps)[0] == ps[0].outcome.error
  {
    if |ps| > 1 {
      FailureHead(ps[..|ps| - 1]);
    } else {
      assert ps[..|ps| - 1] == [];
    }
  }

  /** The first error exactly when something servable was there and all of it failed to
      normalize; otherwise the books dated between the two, each ASIN once. */
  ghost predicate AnswersWindow(answer: Answer, ps: seq<Product>, from: int, to: int) {
    && (answer.Raised? <==> (exists p :: p in ps && p.servable) && (forall p | p in ps && p.servable :: p.outcome.Failed?))
    && (answer.Raised? ==> FailedFirst(ps, answer.error))
    && (answer.Books? ==>
          && (forall asin :: Lists(answer.books, asin) <==> DatedIn(ps, asin, from, to))
          && (forall b | b in answer.books :: ServedIn(ps, b, from, to))
          && AsinsDiffer(answer.books))
  }

  /** One of the servable products' own books, dated from one moment to the other. */
  ghost predicate ServedIn(ps: seq<Product>, b: Book, from: int, to: int) {
    && (exists p :: p in ps && p.servable && p.outcome == Normalized(b))
    && b.date.Some? && from <= b.date.value <= to
  }

  ghost predicate AsinsDiffer(books: seq<Book>) {
    forall j, k | 0 <= j < k < |books| :: books[j].asin != books[k].asin
  }

  lemma {:induction false} GatherHolds(gates: Gates, ps: seq<Product>)
    ensures forall q | q in Gather(gates, [], ps) :: exists p :: p in ps && Accepted(gates, p) && p.outcome.book == q.value
  {
    if ps != [] {
      var n := |ps| - 1;
      GatherHolds(gates, ps[..n]);
      GatherExactly(gates, ps[..n]);
      hide DistinctKeys, Put, Accepted;
      assert ps == ps[..n] + [ps[n]];
      if Accepted(gates, ps[n]) {
        PutEntries(Gather(gates, [], ps[..n]), ps[n].outcome.book.asin, ps[n].outcome.book);
      }
      forall q | q in Gather(gates, [], ps) ensures exists p :: p in ps && Accepted(gates, p) && p.outcome.book == q.value {
        if q !in Gather(gates, [], ps[..n]) {
          assert ps[n] in ps && ps[n].outcome.book == q.value;
        } else {
          var p :| p in ps[..n] && Accepted(gates, p) && p.outcome.book == q.value;
          assert p in ps;
        }
      }
    }
  }

  lemma FilteredServed(gates: Gates, ps: seq<Product>, from: int, to: int)
    requires forall d :: gates.collect(d) <==> from <= d <= to
    ensures Filtered(gates, ps).Books? ==> forall b | b in Filtered(gates, ps).books :: ServedIn(ps, b, from, to)
  {
    GatherHolds(gates, ps);
    var found := Gather(gates, [], ps);
    forall b | b in Values(found) ensures ServedIn(ps, b, from, to) {
      var k :| 0 <= k < |found| && found[k].value == b;
      assert found[k] in found;
    }
  }

  lemma RaisedFirst(gates: Gates, ps: seq<Product>)
    ensures Filtered(gates, ps).Raised? ==> FailedFirst(ps, Filtered(gates, ps).error)
  {
    hide Gather;
    if Filtered(gates, ps).Raised? {
      AllFailed(Servable(ps));
      FirstServable(ps);
      FailureHead(Servable(ps));
      hide Failures, Servable;
      var i :| IsFirstServable(ps, i, Servable(ps)[0]);
      assert ps[i].outcome == Failed(Filtered(gates, ps).error);
    }
  }

  lemma {:induction false} AllFailed(ps: seq<Product>)
    ensures |Failures(ps)| <= |ps|
    ensures |Failures(ps)| == |ps| ==> forall p | p in ps :: p.outcome.Failed?
  {
    if ps != [] {
      AllFailed(ps[..|ps| - 1]);
      assert ps == ps[..|ps| - 1] + [ps[|ps| - 1]];
    }
  }

  lemma FilteredAnswers(gates: Gates, ps: seq<Product>, from: int, to: int)
    requires forall d :: gates.collect(d) <==> from <= d <= to
    ensures AnswersWindow(Filtered(gates, ps), ps, from, to)
  {
    AnswerExactly(gates, ps);
    RaisedFirst(gates, ps);
    FilteredServed(gates, ps, from, to);
    hide Filtered, Lists, FailedFirst, ServedIn;
    forall asin ensures (exists i :: AcceptedAs(gates, ps, i, asin)) <==> DatedIn(ps, asin, from, to) {
      if DatedIn(ps, asin, from, to) {
        var p :| p in ps && p.servable && p.outcome.Normalized? && p.outcome.book.date.Some? &&
                 from <= p.outcome.book.date.value <= to && p.outcome.book.asin == asin != "";
        var i :| 0 <= i < |ps| && ps[i] == p;
        assert AcceptedAs(gates, ps, i, asin);
      }
      if i :| AcceptedAs(gates, ps, i, asin) {
        assert ps[i] in ps;
      }
    }
  }

  // ---------------------------------------------------------------- in order of date

  /** Which of two books the answer puts first: the newer, or the one that comes
      sooner; undated ones last. */
  predicate Goes(newest: bool, a: Book, b: Book) {
    a.date.Some? && (b.date.None? || (if newest then a.date.value > b.date.value else a.date.value < b.date.value))
  }

  function InsertBook(newest: bool, sorted: seq<Book>, b: Book): seq<Book> {
    if sorted == [] then [b]
    else
      var last := sorted[|sorted| - 1];
      if Goes(newest, b, last) then InsertBook(newest, sorted[..|sorted| - 1], b) + [last] else sorted + [b]
  }

  /** list.sort by the answer's key */
  function SortBooks(newest: bool, books: seq<Book>): seq<Book> {
    if books == [] then []
    else InsertBook(newest, SortBooks(newest, books[..|books| - 1]), books[|books| - 1])
  }

  /** The books of one date, as they stand. */
  function OfDate(books: seq<Book>, d: Option<int>): seq<Book> {
    if books == [] then []
    else OfDate(books[..|books| - 1], d) + (if books[|books| - 1].date == d then [books[|books| - 1]] else [])
  }

  ghost predicate InOrder(newest: bool, books: seq<Book>) {
    forall j, k | 0 <= j < k < |books| :: !Goes(newest, books[k], books[j])
  }

  lemma OfDateMore(books: seq<Book>, b: Book, d: Option<int>)
    ensures OfDate(books + [b], d) == OfDate(books, d) + (if b.date == d then [b] else [])
  {
    assert (books + [b])[..|books|] == books;
  }

  lemma {:induction false} InsertHolds(newest: bool, sorted: seq<Book>, b: Book)
    ensures multiset(InsertBook(newest, sorted, b)) == multiset(sorted) + multiset{b}
  {
    hide Goes;
    if sorted != [] {
      var n := |sorted| - 1;
      assert sorted == sorted[..n] + [sorted[n]];
      InsertHolds(newest, sorted[..n], b);
    }
  }

  lemma {:induction false} InsertOfDate(newest: bool, sorted: seq<Book>, b: Book, d: Option<int>)
    ensures OfDate(InsertBook(newest, sorted, b), d) == OfDate(sorted, d) + (if b.date == d then [b] else [])
  {
    hide OfDate;
    if sorted == [] {
      OfDateMore([], b, d);
      assert [] + [b] == [b];
    } else {
      var n := |sorted| - 1;
      assert sorted == sorted[..n] + [sorted[n]];
      OfDateMore(sorted[..n], sorted[n], d);
      OfDateMore(sorted, b, d);
      if Goes(newest, b, sorted[n]) {
        InsertOfDate(newest, sorted[..n], b, d);
        OfDateMore(InsertBook(newest, sorted[..n], b), sorted[n], d);
      }
    }
  }

  /** Nothing that stands in order behind b comes before it. */
  lemma GoesOn(newest: bool, a: Book, b: Book, c: Book)
    ensures !Goes(newest, b, a) && !Goes(newest, c, b) ==> !Goes(newest, c, a)
    ensures Goes(newest, a, b) ==> !Goes(newest, b, a)
  {
  }

  ghost predicate GoesBeforeNone(newest: bool, b: Book, books: seq<Book>) {
    forall x | x in books :: !Goes(newest, b, x)
  }

  lemma OrderMore(newest: bool, books: seq<Book>, b: Book)
    requires InOrder(newest, books) && GoesBeforeNone(newest, b, books)
    ensures InOrder(newest, books + [b])
  {
    hide Goes;
    var all := books + [b];
    forall j, k | 0 <= j < k < |all| ensures !Goes(newest, all[k], all[j]) {
      assert all[j] == books[j] && books[j] in books;
    }
  }

  lemma {:induction false} InsertOrders(newest: bool, sorted: seq<Book>, b: Book)
    requires InOrder(newest, sorted)
    ensures InOrder(newest, InsertBook(newest, sorted, b))
  {
    hide Goes, InOrder;
    if sorted == [] {
      OneInOrder(newest, b);
    } else {
      var n := |sorted| - 1;
      var rest, last := sorted[..n], sorted[n];
      LastInOrder(newest, sorted);
      if Goes(newest, b, last) {
        InsertOrders(newest, rest, b);
        InsertHolds(newest, rest, b);
        var all := InsertBook(newest, rest, b);
        forall x | x in all ensures !Goes(newest, last, x) {
          assert x in multiset(all);
          assert x == b || x in rest;
          GoesOn(newest, b, last, last);
        }
        OrderMore(newest, all, last);
      } else {
        forall x | x in sorted ensures !Goes(newest, b, x) {
          assert sorted == rest + [last];
          GoesOn(newest, x, last, b);
        }
        OrderMore(newest, sorted, b);
      }
    }
  }

  lemma OneInOrder(newest: bool, b: Book)
    ensures InOrder(newest, [b])
  {
  }

  lemma LastInOrder(newest: bool, books: seq<Book>)
    requires books != [] && InOrder(newest, books)
    ensures InOrder(newest, books[..|books| - 1])
    ensures GoesBeforeNone(newest, books[|books| - 1], books[..|books| - 1])
  {
    hide Goes;
    var less := books[..|books| - 1];
    forall x | x in less ensures !Goes(newest, books[|books| - 1], x) {
      var j :| 0 <= j < |less| && less[j] == x;
      assert books[j] == x;
    }
  }

  /** Sorting puts the books in order and keeps those of one date as they stood, so
      none is lost and none made up. */
  lemma {:induction false} SortBooksSorts(newest: bool, books: seq<Book>, d: Option<int>)
    ensures InOrder(newest, SortBooks(newest, books))
    ensures OfDate(SortBooks(newest, books), d) == OfDate(books, d)
    ensures multiset(SortBooks(newest, books)) == multiset(books)
  {
    hide InOrder, InsertBook;
    if books == [] {
      NoneInOrder(newest);
    } else {
      var n := |books| - 1;
      SortBooksSorts(newest, books[..n], d);
      InsertOrders(newest, SortBooks(newest, books[..n]), books[n]);
      InsertOfDate(newest, SortBooks(newest, books[..n]), books[n], d);
      InsertHolds(newest, SortBooks(newest, books[..n]), books[n]);
      assert books == books[..n] + [books[n]];
    }
  }

  lemma NoneInOrder(newest: bool)
    ensures InOrder(newest, [])
  {
  }

  lemma {:induction false} SameBooksDiffer(a: seq<Book>, b: seq<Book>)
    requires multiset(a) == multiset(b) && AsinsDiffer(a)
    ensures AsinsDiffer(b)
  {
    forall j, k | 0 <= j < k < |b| ensures b[j].asin != b[k].asin {
      assert b == b[..j] + [b[j]] + b[j + 1..k] + [b[k]] + b[k + 1..];
      assert b[j] in multiset(a) && b[k] in multiset(a);
      if b[j] == b[k] {
        assert multiset(b)[b[j]] >= 2;
        OnceEach(a, b[j]);
      }
    }
  }

  lemma {:induction false} OnceEach(a: seq<Book>, b: Book)
    requires AsinsDiffer(a)
    ensures multiset(a)[b] <= 1
  {
    if a != [] {
      var n := |a| - 1;
      assert a == a[..n] + [a[n]];
      OnceEach(a[..n], b);
      forall i | 0 <= i < n ensures a[..n][i] != a[n] {
        assert a[i].asin != a[n].asin;
      }
      assert a[n] !in multiset(a[..n]);
    }
  }

  lemma ListsAlike(a: seq<Book>, b: seq<Book>, asin: string)
    requires multiset(a) == multiset(b) && Lists(a, asin)
    ensures Lists(b, asin)
  {
    var k :| 0 <= k < |a| && a[k].asin == asin;
    assert a[k] in multiset(b);
    var j :| 0 <= j < |b| && b[j] == a[k];
    assert b[j].asin == asin;
  }

  lemma SortedAnswers(newest: bool, books: seq<Book>, ps: seq<Product>, from: int, to: int)
    requires AnswersWindow(Books(books), ps, from, to)
    ensures AnswersWindow(Books(SortBooks(newest, books)), ps, from, to) && ByDate(newest, SortBooks(newest, books))
  {
    hide SortBooks, DatedIn, OfDate, Lists, AsinsDiffer;
    var sorted := SortBooks(newest, books);
    SortBooksSorts(newest, books, None);
    SameBooksDiffer(books, sorted);
    forall asin ensures Lists(sorted, asin) <==> Lists(books, asin) {
      if Lists(sorted, asin) { ListsAlike(sorted, books, asin); }
      if Lists(books, asin) { ListsAlike(books, sorted, asin); }
    }
    forall b | b in sorted ensures ServedIn(ps, b, from, to) {
      assert b in multiset(books);
    }
    DatesInOrder(newest, sorted);
  }

  lemma DatesInOrder(newest: bool, books: seq<Book>)
    requires InOrder(newest, books) && forall b | b in books :: b.date.Some?
    ensures ByDate(newest, books)
  {
    forall j, k | 0 <= j < k < |books| ensures DatesGo(newest, books[j], books[k]) {
      assert books[j] in books && books[k] in books && !Goes(newest, books[k], books[j]);
    }
  }

  /** The second is dated no later than the first, newest first, or no sooner. */
  ghost predicate DatesGo(newest: bool, a: Book, b: Book) {
    a.date.Some? && b.date.Some? && if newest then a.date.value >= b.date.value else a.date.value <= b.date.value
  }

  ghost predicate ByDate(newest: bool, books: seq<Book>) {
    forall j, k | 0 <= j < k < |books| :: DatesGo(newest, books[j], books[k])
  }

  // ---------------------------------------------------------------- the two lists

  /** fetch_new_releases: refused, as None, for less than a day; otherwise the books out
      in the last so many days, newest first. */
  method FetchNewReleases(site: Site, days: int, now: int) returns (answer: Option<Answer>)
    ensures answer.None? <==> days < 1
    ensures days >= 1 && NewestFirst(Visible(site.catalog)) ==>
              && AnswersWindow(answer.value, Visible(site.catalog), now - days * 86400000000, now)
              && (answer.value.Books? ==> ByDate(true, answer.value.books))
  {
    if days < 1 {
      return None;
    }
    hide NewestFirst, Visible, Fit, Filtered, AnswersWindow, SortBooks;
    BothWindowsFit(days, now);
    var from := now - days * DAY;
    FilteredAnswers(NewReleasesGates(days, now), Visible(site.catalog), from, now);
    var walked := WalkCatalog(site, NewReleasesGates(days, now));
    match walked {
      case Books(books) =>
        if NewestFirst(Visible(site.catalog)) { SortedAnswers(true, books, Visible(site.catalog), from, now); }
        return Some(Books(SortBooks(true, books)));
      case Raised(_) => return Some(walked);
    }
  }

  /** fetch_coming_soon: the same for the next so many days, soonest first. */
  method FetchComingSoon(site: Site, days: int, now: int) returns (answer: Option<Answer>)
    ensures answer.None? <==> days < 1
    ensures days >= 1 && NewestFirst(Visible(site.catalog)) ==>
              && AnswersWindow(answer.value, Visible(site.catalog), now + 1, now + days * 86400000000)
              && (answer.value.Books? ==> ByDate(false, answer.value.books))
  {
    if days < 1 {
      return None;
    }
    hide NewestFirst, Visible, Fit, Filtered, AnswersWindow, SortBooks;
    BothWindowsFit(days, now);
    var to := now + days * DAY;
    FilteredAnswers(ComingSoonGates(days, now), Visible(site.catalog), now + 1, to);
    var walked := WalkCatalog(site, ComingSoonGates(days, now));
    match walked {
      case Books(books) =>
        if NewestFirst(Visible(site.catalog)) { SortedAnswers(false, books, Visible(site.catalog), now + 1, to); }
        return Some(Books(SortBooks(false, books)));
      case Raised(_) => return Some(walked);
    }
  }
}
