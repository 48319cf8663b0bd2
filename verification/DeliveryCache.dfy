/**
 * The shared cache of delivery estimates: its keys, the provider's answers,
 * and any number of variant builders that look up, ask, store and write quote
 * rows concurrently while entries may vanish at any time.
 */
module DeliveryCache {
  import opened Wrappers
  import opened Money
  import opened JsString

  const BUCKET := 5

  function Ceil(x: real): int {
    -((-x).Floor)
  }

  function BucketWeight(weightKg: real): int {
    var b := Ceil(weightKg / 5.0) * BUCKET;
    if b > BUCKET then b else BUCKET
  }

  function NormalizeCity(city: string): string {
    Lower(Trim(city))
  }

  datatype Request = Request(from: string, to: string, weightKg: real)

  function CacheKey(r: Request): string {
    "delivery:" + NormalizeCity(r.from) + ":" + NormalizeCity(r.to) + ":" + Digits(BucketOf(r))
  }

  function BucketOf(r: Request): nat {
    BucketWeight(r.weightKg)
  }

  // ----- buckets and keys

  lemma BucketBounds(w: real)
    requires w >= 0.0
    ensures w <= BucketWeight(w) as real
    ensures BucketWeight(w) as real - 5.0 <= w
  {
    var n := Ceil(w / 5.0);
    assert n as real - 1.0 < w / 5.0 <= n as real;
    assert n as real * 5.0 == (n * 5) as real;
  }

  /** The n-th bucket: up to five kilograms, then five more each. */
  predicate InBucket(w: real, n: nat) {
    n >= 1 && w <= (5 * n) as real && (n == 1 || (5 * (n - 1)) as real < w)
  }

  /** A weight's bucket is the one it lies in, named by its upper end. */
  lemma BucketIff(w: real, n: nat)
    requires w >= 0.0
    ensures BucketWeight(w) == 5 * n <==> InBucket(w, n)
    ensures BucketWeight(w) % 5 == 0 && BucketWeight(w) >= 5
  {
    var k := Ceil(w / 5.0);
    assert k as real - 1.0 < w / 5.0 <= k as real;
    assert k as real * 5.0 == (k * 5) as real;
  }

  /** Two weights share a bucket name exactly when they lie in one bucket. */
  lemma SameBucketIff(w: real, v: real)
    requires w >= 0.0 && v >= 0.0
    ensures BucketWeight(w) == BucketWeight(v) <==> exists n: nat :: InBucket(w, n) && InBucket(v, n)
  {
    var n := BucketWeight(w) / 5;
    BucketIff(w, n);
    BucketIff(v, n);
    if m: nat :| InBucket(w, m) && InBucket(v, m) {
      BucketIff(w, m);
      BucketIff(v, m);
    }
  }

  lemma SameBucketIsNear(w: real, v: real)
    requires w >= 0.0 && v >= 0.0 && BucketWeight(w) == BucketWeight(v)
    ensures -5.0 <= w - v <= 5.0
  {
    BucketBounds(w);
    BucketBounds(v);
  }

  /** The same city, but for letter case and surrounding space. */
  lemma SameCityIff(city: string, other: string)
    ensures NormalizeCity(city) == NormalizeCity(other) <==>
            exists s, t :: Padded(city, s) && Padded(other, t) && SameLetters(s, t)
  {
    if NormalizeCity(city) == NormalizeCity(other) {
      TrimTakesSpace(city);
      TrimTakesSpace(other);
      LowerIff(Trim(city), Trim(other));
    }
    if s, t :| Padded(city, s) && Padded(other, t) && SameLetters(s, t) {
      TrimOfPadded(city, s);
      TrimOfPadded(other, t);
      SameTrimmed(s, t);
    }
  }

  lemma TrimOfPadded(s: string, core: string)
    requires Padded(s, core)
    ensures Trim(s) == Trim(core)
  {
    var before, after :| AllSpaces(before) && AllSpaces(after) && s == before + core + after;
    TrimIgnoresSpace(before, core, after);
  }

  lemma {:induction false} SameTrimmed(s: string, t: string)
    requires SameLetters(s, t)
    ensures Lower(Trim(s)) == Lower(Trim(t))
    decreases |s|
  {
    if s == "" {
      assert t == "";
    } else {
      var n := |s| - 1;
      SpaceHasNoCase(s[0], t[0]);
      SpaceHasNoCase(s[n], t[n]);
      if IsSpace(s[0]) {
        SameTrimmed(s[1..], t[1..]);
      } else if IsSpace(s[n]) {
        SameTrimmed(s[..n], t[..n]);
      } else {
        LowerIff(s, t);
      }
    }
  }

  lemma SpaceHasNoCase(a: char, b: char)
    requires SameLetter(a, b)
    ensures IsSpace(a) <==> IsSpace(b)
  {
  }

  /** Same normalised cities and same weight bucket. */
  ghost predicate Alike(r: Request, q: Request) {
    && NormalizeCity(r.from) == NormalizeCity(q.from) && NormalizeCity(r.to) == NormalizeCity(q.to)
    && BucketOf(r) == BucketOf(q)
  }

  function Joined(r: Request): string {
    NormalizeCity(r.from) + ":" + NormalizeCity(r.to)
  }

  /** For all cities: keys agree exactly when the joined city names and the buckets do. */
  lemma KeysAgreeIff(r: Request, q: Request)
    ensures CacheKey(r) == CacheKey(q) <==> Joined(r) == Joined(q) && BucketOf(r) == BucketOf(q)
  {
    var a, b := Joined(r), Joined(q);
    var m, n := Digits(BucketOf(r)), Digits(BucketOf(q));
    assert CacheKey(r) == "delivery:" + (a + [':'] + m) && CacheKey(q) == "delivery:" + (b + [':'] + n);
    if CacheKey(r) == CacheKey(q) {
      assert CacheKey(r)[9..] == a + [':'] + m && CacheKey(q)[9..] == b + [':'] + n;
      DigitsNotEmpty(BucketOf(r));
      DigitsNotEmpty(BucketOf(q));
      SplitLast(a, m, b, n, ':');
      DigitsInjective(BucketOf(r), BucketOf(q));
    }
  }

  ghost predicate ColonFree(r: Request) {
    Free(r.from, ':') && Free(r.to, ':')
  }

  lemma NormalizeKeepsColonFree(city: string)
    requires Free(city, ':')
    ensures Free(NormalizeCity(city), ':')
  {
    TrimKeepsFree(city, ':');
  }

  /** A request without colons shares its key with like requests only, whatever the others' cities. */
  lemma KeyIsInjective(r: Request, q: Request)
    requires ColonFree(r) && CacheKey(r) == CacheKey(q)
    ensures Alike(r, q)
  {
    KeysAgreeIff(r, q);
    NormalizeKeepsColonFree(r.from);
    NormalizeKeepsColonFree(r.to);
    SplitOnce(NormalizeCity(r.from), NormalizeCity(r.to), NormalizeCity(q.from), NormalizeCity(q.to), ':');
  }

  /** Two requests that share a key although they should not. */
  ghost predicate Collide(r: Request, q: Request) {
    CacheKey(q) == CacheKey(r) && !Alike(r, q)
  }

  /** A name that `normalizeCity` leaves as it is. */
  predicate Normal(city: string) {
    NormalizeCity(city) == city
  }

  ghost predicate SplitsAgain(r: Request, i: nat) {
    && i < |Joined(r)| && Joined(r)[i] == ':' && i != |NormalizeCity(r.from)|
    && Normal(Joined(r)[..i]) && Normal(Joined(r)[i + 1..])
  }

  lemma JoinedParts(r: Request)
    ensures var n := |NormalizeCity(r.from)|;
            && n < |Joined(r)| && Joined(r)[n] == ':'
            && Joined(r)[..n] == NormalizeCity(r.from) && Joined(r)[n + 1..] == NormalizeCity(r.to)
  {
  }

  lemma UnlikeSplitsAgain(r: Request, q: Request)
    requires Collide(r, q)
    ensures SplitsAgain(r, |NormalizeCity(q.from)|)
  {
    KeysAgreeIff(r, q);
    JoinedParts(r);
    JoinedParts(q);
    LowerTrimSettles(q.from);
    LowerTrimSettles(q.to);
  }

  lemma OtherSplitIsUnlike(r: Request, i: nat)
    requires SplitsAgain(r, i)
    ensures Collide(r, Request(Joined(r)[..i], Joined(r)[i + 1..], r.weightKg))
  {
    var s := Joined(r);
    var q := Request(s[..i], s[i + 1..], r.weightKg);
    assert s[..i] + ":" + s[i + 1..] == s;
    assert |NormalizeCity(s[..i])| == i;
    KeysAgreeIff(r, q);
  }

  /** Colon-freeness is more than needed: a request shares its key with an unlike one exactly when some
      other colon of its joined names splits them into two normalised names. */
  lemma CollidesIff(r: Request)
    ensures (exists q :: Collide(r, q)) <==> exists i :: SplitsAgain(r, i)
  {
    if q :| Collide(r, q) {
      UnlikeSplitsAgain(r, q);
    }
    if i :| SplitsAgain(r, i) {
      OtherSplitIsUnlike(r, i);
    }
  }

  /** With colons in city names different routes can share a key. */
  lemma ColonsCollide(w: real)
    ensures CacheKey(Request("a:b", "c", w)) == CacheKey(Request("a", "b:c", w))
    ensures !Alike(Request("a:b", "c", w), Request("a", "b:c", w))
  {
    var r, q := Request("a:b", "c", w), Request("a", "b:c", w);
    assert NormalizeCity("a:b") == "a:b" && NormalizeCity("c") == "c";
    assert NormalizeCity("a") == "a" && NormalizeCity("b:c") == "b:c";
    assert "a:b" + ":" + "c" == "a" + ":" + "b:c";
    KeysAgreeIff(r, q);
  }

  // ----- the provider's answer

  /** The provider's text after `JSON.parse`; numbers are finite. */
  datatype Answer = Unparsable | OtherShape | Numbers(costRub: real, etaDaysMin: real, etaDaysMax: real)

  datatype Estimate = Estimate(costRub: real, etaDaysMin: int, etaDaysMax: int)

  datatype EstimateError = InvalidJson | UnexpectedShape | InvalidValues

  /** `Math.round`: ties towards positive infinity. */
  function RoundHalfUp(x: real): int {
    (x + 0.5).Floor
  }

  function ParseEstimate(a: Answer): Result<Estimate, EstimateError> {
    match a
    case Unparsable => Err(InvalidJson)
    case OtherShape => Err(UnexpectedShape)
    case Numbers(cost, min, max) =>
      if cost <= 0.0 || min < 0.0 || max < min then Err(InvalidValues)
      else Ok(Estimate(cost, RoundHalfUp(min), RoundHalfUp(max)))
  }

  ghost predicate ValidEstimate(e: Estimate) {
    e.costRub > 0.0 && 0 <= e.etaDaysMin <= e.etaDaysMax
  }

  /** Exactly the numbers with a positive cost and ordered, non-negative days are accepted. The cost is
      kept; each day count is the nearest whole one, the later of two. Any other answer is refused for
      what is wrong with it. */
  lemma ParseAcceptsIff(a: Answer)
    ensures ParseEstimate(a).Ok? <==>
            a.Numbers? && a.costRub > 0.0 && 0.0 <= a.etaDaysMin && a.etaDaysMin <= a.etaDaysMax
    ensures ParseEstimate(a).Ok? ==>
              && ParseEstimate(a).value.costRub == a.costRub
              && NearestDay(ParseEstimate(a).value.etaDaysMin, a.etaDaysMin)
              && NearestDay(ParseEstimate(a).value.etaDaysMax, a.etaDaysMax)
    ensures ParseEstimate(a) == Err(InvalidJson) <==> a.Unparsable?
    ensures ParseEstimate(a) == Err(UnexpectedShape) <==> a.OtherShape?
  {
  }

  predicate NearestDay(day: int, days: real) {
    -0.5 < day as real - days <= 0.5
  }

  lemma ParsedEstimateIsValid(a: Answer)
    requires ParseEstimate(a).Ok?
    ensures ValidEstimate(ParseEstimate(a).value)
  {
  }

  /** A quote row's cost column, in kopecks, for an amount in roubles. */
  function CostColumn(costRub: real): int {
    Stored(costRub * 100.0)
  }

  /** The column keeps a positive amount positive exactly from half a kopeck on. */
  lemma CostStaysPositiveIff(costRub: real)
    requires costRub > 0.0
    ensures CostColumn(costRub) >= 0
    ensures CostColumn(costRub) > 0 <==> costRub >= 0.005
  {
  }

  // ----- concurrent builders

  datatype Phase = Looking | Asking | Storing(e: Estimate) | Writing(e: Estimate) | Written(row: nat) | Failed

  datatype Builder = Builder(request: Request, phase: Phase)

  /** An estimate together with the request it was made or found for. */
  datatype Record = Record(request: Request, estimate: Estimate)

  datatype Source = AI_ESTIMATE | MANUAL

  /** A row of the quote table; its cost column holds whole kopecks. */
  datatype QuoteRow = QuoteRow(request: Request, cost: int, etaDaysMin: int, etaDaysMax: int, source: Source)

  /** `produced` and `hits` are the history of provider answers and of cache hits. */
  datatype World = World(cache: map<string, Estimate>, builders: map<nat, Builder>, rows: seq<QuoteRow>,
                         produced: seq<Record>, hits: seq<Record>)

  const EMPTY_WORLD := World(map[], map[], [], [], [])

  datatype Step =
    | Start(b: nat, request: Request)
    | Lookup(b: nat)
    | Ask(b: nat, answer: Answer)
    | AskFails(b: nat)
    | Store(b: nat)
    | StoreFails(b: nat)
    | WriteRow(b: nat)
    | WriteManual(request: Request, cost: real, etaDaysMin: nat, etaDaysMax: nat)
    | Vanish(key: string)

  predicate At(w: World, b: nat, phase: Phase) {
    b in w.builders && w.builders[b].phase == phase
  }

  function Move(w: World, b: nat, phase: Phase): World
    requires b in w.builders
  {
    w.(builders := w.builders[b := w.builders[b].(phase := phase)])
  }

  function EstimatedRow(r: Request, e: Estimate): QuoteRow {
    QuoteRow(r, CostColumn(e.costRub), e.etaDaysMin, e.etaDaysMax, AI_ESTIMATE)
  }

  /** A request a builder makes: its cities differ. */
  predicate Admissible(r: Request) {
    r.weightKg >= 0.0 && NormalizeCity(r.from) != NormalizeCity(r.to)
  }

  /** A local warehouse never gets here; an estimate survives a failing `set`. A quote entered by hand
      needs only non-negative numbers, and passes the cache by. */
  function Next(w: World, step: Step): Option<World> {
    match step
    case Start(b, r) =>
      if b in w.builders || !Admissible(r) then None
      else Some(w.(builders := w.builders[b := Builder(r, Looking)]))
    case Lookup(b) =>
      if !At(w, b, Looking) then None
      else
        var r := w.builders[b].request;
        if CacheKey(r) in w.cache then
          var e := w.cache[CacheKey(r)];
          Some(Move(w, b, Writing(e)).(hits := w.hits + [Record(r, e)]))
        else Some(Move(w, b, Asking))
    case Ask(b, answer) =>
      if !At(w, b, Asking) then None
      else (match ParseEstimate(answer)
        case Err(_) => Some(Move(w, b, Failed))
        case Ok(e) => Some(Move(w, b, Storing(e)).(produced := w.produced + [Record(w.builders[b].request, e)])))
    case AskFails(b) => if At(w, b, Asking) then Some(Move(w, b, Failed)) else None
    case Store(b) =>
      if b !in w.builders || !w.builders[b].phase.Storing? then None
      else
        var e := w.builders[b].phase.e;
        Some(Move(w, b, Writing(e)).(cache := w.cache[CacheKey(w.builders[b].request) := e]))
    case StoreFails(b) =>
      if b !in w.builders || !w.builders[b].phase.Storing? then None
      else Some(Move(w, b, Writing(w.builders[b].phase.e)))
    case WriteRow(b) =>
      if b !in w.builders || !w.builders[b].phase.Writing? then None
      else
        var row := EstimatedRow(w.builders[b].request, w.builders[b].phase.e);
        Some(Move(w, b, Written(|w.rows|)).(rows := w.rows + [row]))
    case WriteManual(r, cost, min, max) =>
      if cost < 0.0 || r.weightKg < 0.0 then None
      else Some(w.(rows := w.rows + [QuoteRow(r, CostColumn(cost), min, max, MANUAL)]))
    case Vanish(key) => Some(w.(cache := w.cache - {key}))
  }

  function RunSteps(steps: seq<Step>): Option<World> {
    if steps == [] then Some(EMPTY_WORLD)
    else match RunSteps(steps[..|steps| - 1])
      case None => None
      case Some(w) => Next(w, steps[|steps| - 1])
  }

  /** The provider produced the estimate for a request with this key. */
  ghost predicate Backed(produced: seq<Record>, key: string, e: Estimate) {
    exists i | 0 <= i < |produced| :: CacheKey(produced[i].request) == key && produced[i].estimate == e
  }

  ghost predicate BuilderOk(produced: seq<Record>, b: Builder) {
    && Admissible(b.request)
    && (b.phase.Storing? || b.phase.Writing? ==> Backed(produced, CacheKey(b.request), b.phase.e))
  }

  ghost predicate RecordsBacked(produced: seq<Record>, records: seq<Record>) {
    forall i | 0 <= i < |records| ::
      Admissible(records[i].request) && Backed(produced, CacheKey(records[i].request), records[i].estimate)
  }

  /** The row is what the provider produced for a request with its key, rounded on storage. */
  ghost predicate RowBacked(produced: seq<Record>, row: QuoteRow) {
    exists i | 0 <= i < |produced| ::
      CacheKey(produced[i].request) == CacheKey(row.request) && row == EstimatedRow(row.request, produced[i].estimate)
  }

  ghost predicate RowsBacked(produced: seq<Record>, rows: seq<QuoteRow>) {
    forall i | 0 <= i < |rows| && rows[i].source == AI_ESTIMATE :: RowBacked(produced, rows[i])
  }

  ghost predicate Inv(w: World) {
    && (forall k | k in w.cache :: Backed(w.produced, k, w.cache[k]))
    && (forall b | b in w.builders :: BuilderOk(w.produced, w.builders[b]))
    && (forall i | 0 <= i < |w.produced| ::
          Admissible(w.produced[i].request) && ValidEstimate(w.produced[i].estimate))
    && RecordsBacked(w.produced, w.hits)
    && RowsBacked(w.produced, w.rows)
    && (forall i | 0 <= i < |w.rows| && w.rows[i].source == MANUAL :: w.rows[i].cost >= 0 && w.rows[i].etaDaysMin >= 0)
  }

  lemma BackedGrows(produced: seq<Record>, more: Record, key: string, e: Estimate)
    requires Backed(produced, key, e)
    ensures Backed(produced + [more], key, e)
  {
    var i :| 0 <= i < |produced| && CacheKey(produced[i].request) == key && produced[i].estimate == e;
    assert (produced + [more])[i] == produced[i];
  }

  lemma RowBackedGrows(produced: seq<Record>, more: Record, row: QuoteRow)
    requires RowBacked(produced, row)
    ensures RowBacked(produced + [more], row)
  {
    var i :| 0 <= i < |produced| && CacheKey(produced[i].request) == CacheKey(row.request)
             && row == EstimatedRow(row.request, produced[i].estimate);
    assert (produced + [more])[i] == produced[i];
  }

  lemma WriteRowKeepsInv(w: World, b: nat)
    requires Inv(w) && Next(w, WriteRow(b)).Some?
    ensures Inv(Next(w, WriteRow(b)).value)
  {
    assert BuilderOk(w.produced, w.builders[b]);
    var r, e := w.builders[b].request, w.builders[b].phase.e;
    var i :| 0 <= i < |w.produced| && CacheKey(w.produced[i].request) == CacheKey(r) && w.produced[i].estimate == e;
    assert RowBacked(w.produced, EstimatedRow(r, e));
  }

  lemma AskKeepsInv(w: World, b: nat, answer: Answer)
    requires Inv(w) && At(w, b, Asking) && ParseEstimate(answer).Ok?
    ensures Inv(Next(w, Ask(b, answer)).value)
  {
    var r, e := w.builders[b].request, ParseEstimate(answer).value;
    var w' := Next(w, Ask(b, answer)).value;
    ParsedEstimateIsValid(answer);
    assert BuilderOk(w.produced, w.builders[b]);
    forall k, x | Backed(w.produced, k, x) ensures Backed(w'.produced, k, x) {
      BackedGrows(w.produced, Record(r, e), k, x);
    }
    forall row | RowBacked(w.produced, row) ensures RowBacked(w'.produced, row) {
      RowBackedGrows(w.produced, Record(r, e), row);
    }
    assert Backed(w'.produced, CacheKey(r), e) by {
      assert w'.produced[|w.produced|] == Record(r, e);
    }
  }

  lemma WriteManualKeepsInv(w: World, r: Request, cost: real, min: nat, max: nat)
    requires Inv(w) && Next(w, WriteManual(r, cost, min, max)).Some?
    ensures Inv(Next(w, WriteManual(r, cost, min, max)).value)
  {
    StoredIsNearest(cost * 100.0);
  }

  lemma LookupKeepsInv(w: World, b: nat)
    requires Inv(w) && Next(w, Lookup(b)).Some?
    ensures Inv(Next(w, Lookup(b)).value)
  {
    assert BuilderOk(w.produced, w.builders[b]);
  }

  lemma StoreKeepsInv(w: World, b: nat, step: Step)
    requires Inv(w) && (step == Store(b) || step == StoreFails(b)) && Next(w, step).Some?
    ensures Inv(Next(w, step).value)
  {
    assert BuilderOk(w.produced, w.builders[b]);
  }

  lemma NextKeepsInv(w: World, step: Step)
    requires Inv(w) && Next(w, step).Some?
    ensures Inv(Next(w, step).value)
  {
    match step
    case Ask(b, answer) =>
      if ParseEstimate(answer).Ok? {
        AskKeepsInv(w, b, answer);
      }
    case Lookup(b) => LookupKeepsInv(w, b);
    case Store(b) => StoreKeepsInv(w, b, step);
    case StoreFails(b) => StoreKeepsInv(w, b, step);
    case WriteRow(b) => WriteRowKeepsInv(w, b);
    case WriteManual(r, cost, min, max) => WriteManualKeepsInv(w, r, cost, min, max);
    case _ =>
  }

  lemma {:induction false} RunsKeepInv(steps: seq<Step>)
    requires RunSteps(steps).Some?
    ensures Inv(RunSteps(steps).value)
  {
    if steps != [] {
      RunsKeepInv(steps[..|steps| - 1]);
      NextKeepsInv(RunSteps(steps[..|steps| - 1]).value, steps[|steps| - 1]);
    }
  }

  /** The provider made the hit's estimate for the same cities and a weight at most five kilograms away. */
  ghost predicate HitIsAlike(w: World, hit: Record) {
    exists j | 0 <= j < |w.produced| ::
      && w.produced[j].estimate == hit.estimate
      && Alike(hit.request, w.produced[j].request)
      && -5.0 <= hit.request.weightKg - w.produced[j].request.weightKg <= 5.0
  }

  lemma HitOfUncontested(steps: seq<Step>, i: nat)
    requires RunSteps(steps).Some? && i < |RunSteps(steps).value.hits|
    requires forall q | Admissible(q) :: !Collide(RunSteps(steps).value.hits[i].request, q)
    ensures HitIsAlike(RunSteps(steps).value, RunSteps(steps).value.hits[i])
  {
    RunsKeepInv(steps);
    var w := RunSteps(steps).value;
    var r := w.hits[i].request;
    assert Backed(w.produced, CacheKey(r), w.hits[i].estimate);
    var j :| 0 <= j < |w.produced| && CacheKey(w.produced[j].request) == CacheKey(r)
             && w.produced[j].estimate == w.hits[i].estimate;
    assert !Collide(r, w.produced[j].request);
    SameBucketIsNear(r.weightKg, w.produced[j].request.weightKg);
  }

  /** Every cache hit of a request whose joined names split in one way only was produced by the provider
      for the same cities and a weight at most five kilograms away. */
  lemma HitProvenance(steps: seq<Step>, i: nat)
    requires RunSteps(steps).Some? && i < |RunSteps(steps).value.hits|
    requires !exists n :: SplitsAgain(RunSteps(steps).value.hits[i].request, n)
    ensures HitIsAlike(RunSteps(steps).value, RunSteps(steps).value.hits[i])
  {
    CollidesIff(RunSteps(steps).value.hits[i].request);
    HitOfUncontested(steps, i);
  }

  /** Names without colons split in one way only. */
  lemma ColonFreeSplitsOnce(r: Request)
    requires ColonFree(r)
    ensures !exists n :: SplitsAgain(r, n)
  {
    CollidesIff(r);
    forall q ensures !Collide(r, q) {
      if CacheKey(r) == CacheKey(q) {
        KeyIsInjective(r, q);
      }
    }
  }

  /** A request served from the cache with what was produced for another route. */
  lemma ForeignHit(r: Request, q: Request)
    requires Admissible(r) && Admissible(q) && Collide(r, q)
    ensures var answer := Numbers(1.0, 1.0, 1.0);
            var run := RunSteps([Start(0, q), Lookup(0), Ask(0, answer), Store(0), Start(1, r), Lookup(1)]);
            run.Some? && |run.value.hits| == 1 && run.value.hits[0].request == r
            && !HitIsAlike(run.value, run.value.hits[0])
  {
    var answer := Numbers(1.0, 1.0, 1.0);
    var s1 := [Start(0, q)];
    var s2 := s1 + [Lookup(0)];
    var s3 := s2 + [Ask(0, answer)];
    var s4 := s3 + [Store(0)];
    var s5 := s4 + [Start(1, r)];
    assert s1[..0] == [];
    RunStepsSnoc(s1, Lookup(0));
    RunStepsSnoc(s2, Ask(0, answer));
    RunStepsSnoc(s3, Store(0));
    RunStepsSnoc(s4, Start(1, r));
    RunStepsSnoc(s5, Lookup(1));
    assert s5 + [Lookup(1)] == [Start(0, q), Lookup(0), Ask(0, answer), Store(0), Start(1, r), Lookup(1)];
  }

  ghost predicate AllHitsAlike(w: World, r: Request) {
    forall i | 0 <= i < |w.hits| && w.hits[i].request == r :: HitIsAlike(w, w.hits[i])
  }

  /** The cache serves a request only with estimates for its own route, in every run, exactly when no
      request for another route has its key. */
  lemma CacheIsSoundIff(r: Request)
    requires Admissible(r)
    ensures (forall steps | RunSteps(steps).Some? :: AllHitsAlike(RunSteps(steps).value, r))
            <==> forall q | Admissible(q) :: !Collide(r, q)
  {
    if forall q | Admissible(q) :: !Collide(r, q) {
      forall steps | RunSteps(steps).Some? ensures AllHitsAlike(RunSteps(steps).value, r) {
        ServedSoundly(steps, r);
      }
    } else {
      var q :| Admissible(q) && Collide(r, q);
      ForeignHitIsServed(r, q);
    }
  }

  lemma ForeignHitIsServed(r: Request, q: Request)
    requires Admissible(r) && Admissible(q) && Collide(r, q)
    ensures exists steps :: RunSteps(steps).Some? && !AllHitsAlike(RunSteps(steps).value, r)
  {
    var steps := [Start(0, q), Lookup(0), Ask(0, Numbers(1.0, 1.0, 1.0)), Store(0), Start(1, r), Lookup(1)];
    ForeignHit(r, q);
    assert !AllHitsAlike(RunSteps(steps).value, r);
  }

  lemma ServedSoundly(steps: seq<Step>, r: Request)
    requires RunSteps(steps).Some? && forall q | Admissible(q) :: !Collide(r, q)
    ensures AllHitsAlike(RunSteps(steps).value, r)
  {
    var w := RunSteps(steps).value;
    forall i | 0 <= i < |w.hits| && w.hits[i].request == r ensures HitIsAlike(w, w.hits[i]) {
      HitOfUncontested(steps, i);
    }
  }

  ghost predicate ValidRow(row: QuoteRow) {
    row.cost >= 0 && 0 <= row.etaDaysMin <= row.etaDaysMax
  }

  /** In every run each cached estimate has a positive cost and 0 <= etaDaysMin <= etaDaysMax; each
      AI_ESTIMATE row has 0 <= etaDaysMin <= etaDaysMax, and its cost is the provider's, to the nearest
      kopeck: never negative, and positive exactly when the provider asked half a kopeck or more. */
  lemma EstimatesStayValid(steps: seq<Step>)
    requires RunSteps(steps).Some?
    ensures forall k | k in RunSteps(steps).value.cache :: ValidEstimate(RunSteps(steps).value.cache[k])
    ensures var w := RunSteps(steps).value;
            forall i | 0 <= i < |w.rows| && w.rows[i].source == AI_ESTIMATE ::
              && ValidRow(w.rows[i])
              && exists j | 0 <= j < |w.produced| ::
                   && CacheKey(w.produced[j].request) == CacheKey(w.rows[i].request)
                   && -0.5 <= w.rows[i].cost as real - 100.0 * w.produced[j].estimate.costRub <= 0.5
                   && (w.rows[i].cost > 0 <==> w.produced[j].estimate.costRub >= 0.005)
  {
    RunsKeepInv(steps);
    var w := RunSteps(steps).value;
    forall k, e | Backed(w.produced, k, e) ensures ValidEstimate(e) {
      var j :| 0 <= j < |w.produced| && CacheKey(w.produced[j].request) == k && w.produced[j].estimate == e;
    }
    forall i | 0 <= i < |w.rows| && w.rows[i].source == AI_ESTIMATE
      ensures ValidRow(w.rows[i])
      ensures exists j | 0 <= j < |w.produced| ::
                && CacheKey(w.produced[j].request) == CacheKey(w.rows[i].request)
                && -0.5 <= w.rows[i].cost as real - 100.0 * w.produced[j].estimate.costRub <= 0.5
                && (w.rows[i].cost > 0 <==> w.produced[j].estimate.costRub >= 0.005)
    {
      assert RowBacked(w.produced, w.rows[i]);
      var j :| 0 <= j < |w.produced| && CacheKey(w.produced[j].request) == CacheKey(w.rows[i].request)
               && w.rows[i] == EstimatedRow(w.rows[i].request, w.produced[j].estimate);
      CostStaysPositiveIff(w.produced[j].estimate.costRub);
      StoredIsNearest(w.produced[j].estimate.costRub * 100.0);
    }
  }

  // ----- every builder gets an answer of its own

  /** A finished builder has a row for its request, which no other builder has. */
  ghost predicate OwnRows(w: World) {
    && (forall b | b in w.builders && w.builders[b].phase.Written? ::
          && w.builders[b].phase.row < |w.rows|
          && w.rows[w.builders[b].phase.row].request == w.builders[b].request
          && w.rows[w.builders[b].phase.row].source == AI_ESTIMATE)
    && (forall b, c | b in w.builders && c in w.builders && b != c
          && w.builders[b].phase.Written? && w.builders[c].phase.Written? ::
          w.builders[b].phase.row != w.builders[c].phase.row)
    && (forall i | 0 <= i < |w.rows| && w.rows[i].source == AI_ESTIMATE ::
          exists b | b in w.builders :: w.builders[b].phase == Written(i))
  }

  lemma WriteRowKeepsOwnRows(w: World, b: nat)
    requires OwnRows(w) && Next(w, WriteRow(b)).Some?
    ensures OwnRows(Next(w, WriteRow(b)).value)
  {
    var w' := Next(w, WriteRow(b)).value;
    forall i | 0 <= i < |w'.rows| && w'.rows[i].source == AI_ESTIMATE
      ensures exists c | c in w'.builders :: w'.builders[c].phase == Written(i)
    {
      if i < |w.rows| {
        assert w.rows[i].source == AI_ESTIMATE;
        var c :| c in w.builders && w.builders[c].phase == Written(i);
        assert w'.builders[c].phase == Written(i);
      } else {
        assert w'.builders[b].phase == Written(i);
      }
    }
  }

  ghost predicate SameWritten(w: World, w': World) {
    && (forall b | b in w.builders && w.builders[b].phase.Written? ::
          b in w'.builders && w'.builders[b] == w.builders[b])
    && (forall b | b in w'.builders && w'.builders[b].phase.Written? ::
          b in w.builders && w'.builders[b] == w.builders[b])
  }

  lemma OtherStepWritesNothing(w: World, step: Step)
    requires Next(w, step).Some? && !step.WriteRow?
    ensures SameWritten(w, Next(w, step).value)
    ensures Next(w, step).value.rows ==
            if step.WriteManual? then
              w.rows + [QuoteRow(step.request, CostColumn(step.cost), step.etaDaysMin, step.etaDaysMax, MANUAL)]
            else w.rows
  {
  }

  lemma ManualRowsBelongToNobody(w: World, w': World, more: seq<QuoteRow>)
    requires OwnRows(w) && SameWritten(w, w') && w'.rows == w.rows + more
    requires forall i | 0 <= i < |more| :: more[i].source == MANUAL
    ensures OwnRows(w')
  {
    forall i | 0 <= i < |w'.rows| && w'.rows[i].source == AI_ESTIMATE
      ensures exists c | c in w'.builders :: w'.builders[c].phase == Written(i)
    {
      assert i < |w.rows| && w.rows[i].source == AI_ESTIMATE;
      var c :| c in w.builders && w.builders[c].phase == Written(i);
      assert w'.builders[c].phase == Written(i);
    }
  }

  lemma NextKeepsOwnRows(w: World, step: Step)
    requires OwnRows(w) && Next(w, step).Some?
    ensures OwnRows(Next(w, step).value)
  {
    var w' := Next(w, step).value;
    if step.WriteRow? {
      WriteRowKeepsOwnRows(w, step.b);
    } else {
      OtherStepWritesNothing(w, step);
      assert w.rows + [] == w.rows;
      ManualRowsBelongToNobody(w, w', w'.rows[|w.rows|..]);
    }
  }

  /** In every run each AI_ESTIMATE row belongs to exactly one builder, also on a cache hit: later deals
      never have to share one. */
  lemma {:induction false} RowsAreNotShared(steps: seq<Step>)
    requires RunSteps(steps).Some?
    ensures OwnRows(RunSteps(steps).value)
  {
    if steps != [] {
      RowsAreNotShared(steps[..|steps| - 1]);
      NextKeepsOwnRows(RunSteps(steps[..|steps| - 1]).value, steps[|steps| - 1]);
    }
  }

  function RunFrom(w: World, steps: seq<Step>): Option<World> {
    if steps == [] then Some(w)
    else match RunFrom(w, steps[..|steps| - 1])
      case None => None
      case Some(now) => Next(now, steps[|steps| - 1])
  }

  lemma {:induction false} CachedUntilVanished(w: World, steps: seq<Step>, key: string)
    requires key in w.cache && RunFrom(w, steps).Some? && Vanish(key) !in steps
    ensures key in RunFrom(w, steps).value.cache
  {
    if steps != [] {
      CachedUntilVanished(w, steps[..|steps| - 1], key);
    }
  }

  lemma AlikeShareKey(r: Request, q: Request)
    requires Alike(r, q)
    ensures CacheKey(r) == CacheKey(q)
  {
  }

  /** Once an estimate is stored, every later request alike, by whatever builder, is served from the
      cache without asking the provider, until the entry vanishes. */
  lemma StoredIsServed(w: World, b: nat, steps: seq<Step>, c: nat)
    requires Next(w, Store(b)).Some? && RunFrom(Next(w, Store(b)).value, steps).Some?
    requires Vanish(CacheKey(w.builders[b].request)) !in steps
    requires At(RunFrom(Next(w, Store(b)).value, steps).value, c, Looking)
    requires Alike(w.builders[b].request, RunFrom(Next(w, Store(b)).value, steps).value.builders[c].request)
    ensures var now := RunFrom(Next(w, Store(b)).value, steps).value;
            var key := CacheKey(w.builders[b].request);
            && key in now.cache && Next(now, Lookup(c)).Some?
            && var served := Next(now, Lookup(c)).value;
               && served.builders[c].phase == Writing(now.cache[key])
               && served.hits == now.hits + [Record(now.builders[c].request, now.cache[key])]
               && served.produced == now.produced
  {
    var now := RunFrom(Next(w, Store(b)).value, steps).value;
    CachedUntilVanished(Next(w, Store(b)).value, steps, CacheKey(w.builders[b].request));
    AlikeShareKey(w.builders[b].request, now.builders[c].request);
  }

  lemma RunFromSnoc(w: World, steps: seq<Step>, last: Step)
    requires RunFrom(w, steps).Some?
    ensures RunFrom(w, steps + [last]) == Next(RunFrom(w, steps).value, last)
  {
    assert (steps + [last])[..|steps|] == steps;
  }

  /** A valid answer of the provider always becomes a row, even when the cache cannot be written. */
  lemma ValidAnswerBecomesARow(w: World, b: nat, answer: Answer, store: Step)
    requires At(w, b, Asking) && ParseEstimate(answer).Ok? && (store == Store(b) || store == StoreFails(b))
    ensures var run := RunFrom(w, [Ask(b, answer), store, WriteRow(b)]);
            run.Some? && run.value.rows == w.rows + [EstimatedRow(w.builders[b].request, ParseEstimate(answer).value)]
  {
    var s1 := [Ask(b, answer)];
    assert s1[..0] == [];
    RunFromSnoc(w, s1, store);
    RunFromSnoc(w, s1 + [store], WriteRow(b));
    assert s1 + [store] + [WriteRow(b)] == [Ask(b, answer), store, WriteRow(b)];
  }

  /** A failing provider or an invalid answer leaves the builder without a row, and nothing cached. */
  lemma BadAnswerLeavesNothing(w: World, b: nat, step: Step)
    requires At(w, b, Asking)
    requires step == AskFails(b) || (step.Ask? && step.b == b && ParseEstimate(step.answer).Err?)
    ensures Next(w, step) == Some(w.(builders := w.builders[b := Builder(w.builders[b].request, Failed)]))
  {
  }

  // ----- what rows do not promise

  lemma RunStepsSnoc(steps: seq<Step>, last: Step)
    requires RunSteps(steps).Some?
    ensures RunSteps(steps + [last]) == Next(RunSteps(steps).value, last)
  {
    assert (steps + [last])[..|steps|] == steps;
  }

  /** The provider asks for 0.4 kopecks, the answer is accepted, and the row says the delivery is free. */
  lemma FreeQuoteIsWritten(r: Request)
    requires r.weightKg >= 0.0 && NormalizeCity(r.from) != NormalizeCity(r.to)
    ensures var run := RunSteps([Start(0, r), Lookup(0), Ask(0, Numbers(0.004, 0.0, 0.0)), StoreFails(0), WriteRow(0)]);
            run.Some? && run.value.rows == [QuoteRow(r, 0, 0, 0, AI_ESTIMATE)]
  {
    var s1 := [Start(0, r)];
    var s2 := s1 + [Lookup(0)];
    var s3 := s2 + [Ask(0, Numbers(0.004, 0.0, 0.0))];
    var s4 := s3 + [StoreFails(0)];
    assert s1[..0] == [];
    RunStepsSnoc(s1, Lookup(0));
    RunStepsSnoc(s2, Ask(0, Numbers(0.004, 0.0, 0.0)));
    RunStepsSnoc(s3, StoreFails(0));
    RunStepsSnoc(s4, WriteRow(0));
    assert s4 + [WriteRow(0)]
        == [Start(0, r), Lookup(0), Ask(0, Numbers(0.004, 0.0, 0.0)), StoreFails(0), WriteRow(0)];
  }

  /** In every run only a quote entered by hand can be invalid, and exactly if its days are reversed. */
  lemma RowIsValidIff(steps: seq<Step>, i: nat)
    requires RunSteps(steps).Some? && i < |RunSteps(steps).value.rows|
    ensures var row := RunSteps(steps).value.rows[i];
            ValidRow(row) <==> row.source == MANUAL ==> row.etaDaysMin <= row.etaDaysMax
  {
    RunsKeepInv(steps);
    EstimatesStayValid(steps);
  }

  lemma ReversedDaysAreWritten(r: Request)
    requires r.weightKg >= 0.0
    ensures var run := RunSteps([WriteManual(r, 0.0, 5, 2)]);
            run.Some? && run.value.rows == [QuoteRow(r, 0, 5, 2, MANUAL)] && !ValidRow(run.value.rows[0])
  {
    assert [WriteManual(r, 0.0, 5, 2)][..0] == [];
  }
}
