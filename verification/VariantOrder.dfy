/** The comparator handed to `variants.sort` and the order any stable sort makes of it. */
module VariantOrder {
  import opened Wrappers

  /** A warehouse's variant: local, with a quote, or without one. */
  datatype Variant =
    | LocalVariant(warehouse: string)
    | Quoted(warehouse: string, etaDaysMax: int, cost: real)
    | Unquoted(warehouse: string)

  datatype DeliveryOption = DeliveryOption(etaDays: Option<int>, price: real)

  const MAX_SAFE_INTEGER := 9007199254740991

  function Representative(v: Variant, options: seq<DeliveryOption>): (int, real) {
    match v
    case LocalVariant(_) =>
      if options == [] then (0, 0.0)
      else (if options[0].etaDays.Some? then options[0].etaDays.value else 0, options[0].price)
    case Quoted(_, eta, cost) => (eta, cost)
    case Unquoted(_) => (MAX_SAFE_INTEGER, MAX_SAFE_INTEGER as real)
  }

  function Compare(a: Variant, b: Variant, options: seq<DeliveryOption>): real {
    if a.LocalVariant? != b.LocalVariant? then (if a.LocalVariant? then -1.0 else 1.0)
    else
      var (etaA, priceA) := Representative(a, options);
      var (etaB, priceB) := Representative(b, options);
      if etaA != etaB then (etaA - etaB) as real else priceA - priceB
  }

  /** Section 23.1.3.30 of ECMA-262 (ES2023): a consistent comparator is reflexive and antisymmetric in
      sign, and both "less" and "equal" are transitive. */
  lemma CompareIsConsistent(a: Variant, b: Variant, c: Variant, options: seq<DeliveryOption>)
    ensures Compare(a, a, options) == 0.0
    ensures Compare(a, b, options) < 0.0 <==> Compare(b, a, options) > 0.0
    ensures Compare(a, b, options) == 0.0 <==> Compare(b, a, options) == 0.0
    ensures Compare(a, b, options) < 0.0 && Compare(b, c, options) < 0.0 ==> Compare(a, c, options) < 0.0
    ensures Compare(a, b, options) == 0.0 && Compare(b, c, options) == 0.0 ==> Compare(a, c, options) == 0.0
    ensures Compare(a, b, options) == 0.0 && Compare(b, c, options) < 0.0 ==> Compare(a, c, options) < 0.0
    ensures Compare(a, b, options) < 0.0 && Compare(b, c, options) == 0.0 ==> Compare(a, c, options) < 0.0
  {
  }

  // ----- stable sorting

  function Filter(vs: seq<Variant>, p: Variant -> bool): seq<Variant> {
    if vs == [] then []
    else
      var rest, last := vs[..|vs| - 1], vs[|vs| - 1];
      if p(last) then Filter(rest, p) + [last] else Filter(rest, p)
  }

  function EqualTo(v: Variant, options: seq<DeliveryOption>): Variant -> bool {
    (w: Variant) => Compare(w, v, options) == 0.0
  }

  ghost predicate Ascending(vs: seq<Variant>, options: seq<DeliveryOption>) {
    forall i, j | 0 <= i < j < |vs| :: Compare(vs[i], vs[j], options) <= 0.0
  }

  /** `sorted` is ascending, and variants that compare equal are the same ones in the same order. */
  ghost predicate IsStableSort(vs: seq<Variant>, sorted: seq<Variant>, options: seq<DeliveryOption>) {
    && Ascending(sorted, options)
    && forall v :: Filter(sorted, EqualTo(v, options)) == Filter(vs, EqualTo(v, options))
  }

  lemma {:induction false} FilterCounts(vs: seq<Variant>, p: Variant -> bool, v: Variant)
    requires p(v)
    ensures multiset(Filter(vs, p))[v] == multiset(vs)[v]
  {
    if vs != [] {
      var rest, last := vs[..|vs| - 1], vs[|vs| - 1];
      assert vs == rest + [last];
      FilterCounts(rest, p, v);
    }
  }

  /** A stable sort is a permutation. */
  lemma StableSortPermutes(vs: seq<Variant>, sorted: seq<Variant>, options: seq<DeliveryOption>)
    requires IsStableSort(vs, sorted, options)
    ensures multiset(sorted) == multiset(vs)
  {
    forall v ensures multiset(sorted)[v] == multiset(vs)[v] {
      FilterCounts(sorted, EqualTo(v, options), v);
      FilterCounts(vs, EqualTo(v, options), v);
    }
  }

  lemma {:induction false} FilterSame(vs: seq<Variant>, p: Variant -> bool, q: Variant -> bool)
    requires forall i | 0 <= i < |vs| :: p(vs[i]) == q(vs[i])
    ensures Filter(vs, p) == Filter(vs, q)
  {
    if vs != [] {
      FilterSame(vs[..|vs| - 1], p, q);
    }
  }

  lemma {:induction false} FilterNone(vs: seq<Variant>, p: Variant -> bool)
    requires forall i | 0 <= i < |vs| :: !p(vs[i])
    ensures Filter(vs, p) == []
  {
    if vs != [] {
      FilterNone(vs[..|vs| - 1], p);
    }
  }

  lemma {:induction false} FilterAscends(vs: seq<Variant>, p: Variant -> bool, options: seq<DeliveryOption>)
    requires Ascending(vs, options)
    ensures Ascending(Filter(vs, p), options)
    ensures forall v | v in Filter(vs, p) :: p(v) && v in vs
  {
    if vs != [] {
      var rest, last := vs[..|vs| - 1], vs[|vs| - 1];
      FilterAscends(rest, p, options);
      forall v | v in rest ensures Compare(v, last, options) <= 0.0 {
        var i :| 0 <= i < |rest| && rest[i] == v;
        assert vs[i] == v;
      }
      assert vs == rest + [last];
    }
  }

  function Group(v: Variant): nat {
    match v case LocalVariant(_) => 0 case Quoted(_, _, _) => 1 case Unquoted(_) => 2
  }

  function InGroup(g: nat): Variant -> bool {
    (v: Variant) => Group(v) == g
  }

  /** A list whose groups never step back is its three groups one after another. */
  lemma {:induction false} GroupsInOrder(vs: seq<Variant>)
    requires forall i, j | 0 <= i < j < |vs| :: Group(vs[i]) <= Group(vs[j])
    ensures vs == Filter(vs, InGroup(0)) + Filter(vs, InGroup(1)) + Filter(vs, InGroup(2))
  {
    if vs != [] {
      var rest, last := vs[..|vs| - 1], vs[|vs| - 1];
      GroupsInOrder(rest);
      forall i | 0 <= i < |rest| ensures Group(rest[i]) <= Group(last) {
        assert Group(vs[i]) <= Group(vs[|vs| - 1]);
      }
      if Group(last) < 2 {
        FilterNone(rest, InGroup(2));
      }
      if Group(last) < 1 {
        FilterNone(rest, InGroup(1));
      }
      assert vs == rest + [last];
    }
  }

  /** Quote columns hold 32-bit day counts, so a quoted variant never reaches the sentinel. */
  ghost predicate QuotesInRange(vs: seq<Variant>) {
    forall i | 0 <= i < |vs| :: vs[i].Quoted? ==> vs[i].etaDaysMax < MAX_SAFE_INTEGER
  }

  lemma GroupMembersKeepOrder(vs: seq<Variant>, sorted: seq<Variant>, options: seq<DeliveryOption>, v: Variant)
    requires IsStableSort(vs, sorted, options) && QuotesInRange(vs) && QuotesInRange(sorted)
    requires !v.Quoted?
    ensures Filter(sorted, InGroup(Group(v))) == Filter(vs, InGroup(Group(v)))
  {
    FilterSame(vs, InGroup(Group(v)), EqualTo(v, options));
    FilterSame(sorted, InGroup(Group(v)), EqualTo(v, options));
    assert Filter(sorted, EqualTo(v, options)) == Filter(vs, EqualTo(v, options));
  }

  lemma RangeSurvivesSort(vs: seq<Variant>, sorted: seq<Variant>, options: seq<DeliveryOption>)
    requires IsStableSort(vs, sorted, options) && QuotesInRange(vs)
    ensures QuotesInRange(sorted)
  {
    StableSortPermutes(vs, sorted, options);
    forall i | 0 <= i < |sorted| ensures sorted[i].Quoted? ==> sorted[i].etaDaysMax < MAX_SAFE_INTEGER {
      assert sorted[i] in multiset(sorted);
      assert sorted[i] in vs;
    }
  }

  lemma {:induction false} FilterMultiset(vs: seq<Variant>, sorted: seq<Variant>, p: Variant -> bool)
    requires multiset(vs) == multiset(sorted)
    ensures multiset(Filter(sorted, p)) == multiset(Filter(vs, p))
  {
    forall v ensures multiset(Filter(sorted, p))[v] == multiset(Filter(vs, p))[v] {
      if p(v) {
        FilterCounts(sorted, p, v);
        FilterCounts(vs, p, v);
      } else {
        FilterOmits(sorted, p, v);
        FilterOmits(vs, p, v);
      }
    }
  }

  lemma {:induction false} FilterOmits(vs: seq<Variant>, p: Variant -> bool, v: Variant)
    requires !p(v)
    ensures v !in Filter(vs, p)
  {
    if vs != [] {
      FilterOmits(vs[..|vs| - 1], p, v);
    }
  }

  predicate NotLater(a: Variant, b: Variant) {
    && a.Quoted? && b.Quoted?
    && (a.etaDaysMax < b.etaDaysMax || (a.etaDaysMax == b.etaDaysMax && a.cost <= b.cost))
  }

  ghost predicate ByEtaThenPrice(vs: seq<Variant>) {
    forall i, j | 0 <= i < j < |vs| :: NotLater(vs[i], vs[j])
  }

  /** Whatever stable sort runs: first the local variants in their original order, then the quoted ones
      by delivery time and price, then the unquoted ones in their original order. */
  lemma ListedOrder(vs: seq<Variant>, sorted: seq<Variant>, options: seq<DeliveryOption>)
    requires IsStableSort(vs, sorted, options) && QuotesInRange(vs)
    ensures var quoted := Filter(sorted, InGroup(1));
            && sorted == Filter(vs, InGroup(0)) + quoted + Filter(vs, InGroup(2))
            && multiset(quoted) == multiset(Filter(vs, InGroup(1)))
            && ByEtaThenPrice(quoted)
  {
    RangeSurvivesSort(vs, sorted, options);
    forall i, j | 0 <= i < j < |sorted| ensures Group(sorted[i]) <= Group(sorted[j]) {
      assert Compare(sorted[i], sorted[j], options) <= 0.0;
    }
    GroupsInOrder(sorted);
    GroupMembersKeepOrder(vs, sorted, options, LocalVariant(""));
    GroupMembersKeepOrder(vs, sorted, options, Unquoted(""));
    StableSortPermutes(vs, sorted, options);
    FilterMultiset(vs, sorted, InGroup(1));
    FilterAscends(sorted, InGroup(1), options);
    QuotedByEtaThenPrice(Filter(sorted, InGroup(1)), options);
  }

  lemma QuotedByEtaThenPrice(vs: seq<Variant>, options: seq<DeliveryOption>)
    requires Ascending(vs, options) && forall v | v in vs :: Group(v) == 1
    ensures ByEtaThenPrice(vs)
  {
    forall i, j | 0 <= i < j < |vs| ensures NotLater(vs[i], vs[j]) {
      assert vs[i] in vs && vs[j] in vs;
      assert Compare(vs[i], vs[j], options) <= 0.0;
    }
  }

  /** The order is determined: any two stable sorts of the same list agree. */
  lemma {:induction false} StableSortIsUnique(a: seq<Variant>, b: seq<Variant>, options: seq<DeliveryOption>)
    requires Ascending(a, options) && Ascending(b, options)
    requires forall v :: Filter(a, EqualTo(v, options)) == Filter(b, EqualTo(v, options))
    ensures a == b
  {
    StableSortPermutes(a, b, options);
    if a != [] {
      var n := |a| - 1;
      assert |a| == |b| by {
        assert |multiset(a)| == |a| && |multiset(b)| == |b|;
      }
      LastIsGreatest(a, b, options);
      SameLast(a, b, options);
      forall v ensures Filter(a[..n], EqualTo(v, options)) == Filter(b[..n], EqualTo(v, options)) {
        SameInit(a, b, EqualTo(v, options));
      }
      StableSortIsUnique(a[..n], b[..n], options);
      assert a == a[..n] + [a[n]] && b == b[..n] + [b[n]];
    } else {
      assert |multiset(b)| == |b|;
    }
  }

  lemma SameLast(a: seq<Variant>, b: seq<Variant>, options: seq<DeliveryOption>)
    requires a != [] && |a| == |b|
    requires Compare(a[|a| - 1], b[|b| - 1], options) == 0.0
    requires forall v :: Filter(a, EqualTo(v, options)) == Filter(b, EqualTo(v, options))
    ensures a[|a| - 1] == b[|b| - 1]
  {
    var x := a[|a| - 1];
    CompareIsConsistent(x, b[|b| - 1], x, options);
    var fa, fb := Filter(a, EqualTo(x, options)), Filter(b, EqualTo(x, options));
    assert fa == fb;
    assert fa[|fa| - 1] == x && fb[|fb| - 1] == b[|b| - 1];
  }

  lemma SameInit(a: seq<Variant>, b: seq<Variant>, p: Variant -> bool)
    requires a != [] && b != [] && a[|a| - 1] == b[|b| - 1] && Filter(a, p) == Filter(b, p)
    ensures Filter(a[..|a| - 1], p) == Filter(b[..|b| - 1], p)
  {
    if p(a[|a| - 1]) {
      var fa, fb := Filter(a, p), Filter(b, p);
      assert fa[..|fa| - 1] == Filter(a[..|a| - 1], p) && fb[..|fb| - 1] == Filter(b[..|b| - 1], p);
    }
  }

  lemma LastIsGreatest(a: seq<Variant>, b: seq<Variant>, options: seq<DeliveryOption>)
    requires Ascending(a, options) && Ascending(b, options) && a != [] && |a| == |b| && multiset(a) == multiset(b)
    ensures Compare(a[|a| - 1], b[|b| - 1], options) == 0.0
  {
    var x, y := a[|a| - 1], b[|b| - 1];
    assert x in multiset(b) && y in multiset(a);
    var i :| 0 <= i < |b| && b[i] == x;
    var j :| 0 <= j < |a| && a[j] == y;
    CompareIsConsistent(x, y, x, options);
  }

  // ----- such a sort exists

  /** Puts a variant behind everything that does not compare greater. */
  function Insert(sorted: seq<Variant>, v: Variant, options: seq<DeliveryOption>): seq<Variant> {
    if sorted == [] || Compare(sorted[|sorted| - 1], v, options) <= 0.0 then sorted + [v]
    else Insert(sorted[..|sorted| - 1], v, options) + [sorted[|sorted| - 1]]
  }

  function Sorted(vs: seq<Variant>, options: seq<DeliveryOption>): seq<Variant> {
    if vs == [] then [] else Insert(Sorted(vs[..|vs| - 1], options), vs[|vs| - 1], options)
  }

  lemma FilterSnoc(vs: seq<Variant>, v: Variant, p: Variant -> bool)
    ensures Filter(vs + [v], p) == if p(v) then Filter(vs, p) + [v] else Filter(vs, p)
  {
    assert (vs + [v])[..|vs|] == vs;
  }

  lemma {:induction false} InsertFilters(sorted: seq<Variant>, v: Variant, u: Variant, options: seq<DeliveryOption>)
    ensures Filter(Insert(sorted, v, options), EqualTo(u, options)) == Filter(sorted + [v], EqualTo(u, options))
  {
    var p := EqualTo(u, options);
    if sorted != [] && Compare(sorted[|sorted| - 1], v, options) > 0.0 {
      var rest, last := sorted[..|sorted| - 1], sorted[|sorted| - 1];
      assert sorted == rest + [last];
      InsertFilters(rest, v, u, options);
      FilterSnoc(Insert(rest, v, options), last, p);
      FilterSnoc(rest, v, p);
      FilterSnoc(rest, last, p);
      FilterSnoc(sorted, v, p);
      CompareIsConsistent(last, u, v, options);
      CompareIsConsistent(v, u, last, options);
    }
  }

  /** Everything in the list compares at most equal to `bound`. */
  ghost predicate UpTo(vs: seq<Variant>, bound: Variant, options: seq<DeliveryOption>) {
    forall i | 0 <= i < |vs| :: Compare(vs[i], bound, options) <= 0.0
  }

  lemma {:induction false} InsertStaysUpTo(sorted: seq<Variant>, v: Variant, bound: Variant,
                                           options: seq<DeliveryOption>)
    requires UpTo(sorted, bound, options) && Compare(v, bound, options) <= 0.0
    ensures UpTo(Insert(sorted, v, options), bound, options)
  {
    if sorted != [] && Compare(sorted[|sorted| - 1], v, options) > 0.0 {
      InsertStaysUpTo(sorted[..|sorted| - 1], v, bound, options);
    }
  }

  lemma AscendingSnoc(vs: seq<Variant>, v: Variant, options: seq<DeliveryOption>)
    requires Ascending(vs, options) && UpTo(vs, v, options)
    ensures Ascending(vs + [v], options)
  {
  }

  lemma {:induction false} InsertAscends(sorted: seq<Variant>, v: Variant, options: seq<DeliveryOption>)
    requires Ascending(sorted, options)
    ensures Ascending(Insert(sorted, v, options), options)
  {
    if sorted == [] {
      AscendingSnoc(sorted, v, options);
    } else {
      var rest, last := sorted[..|sorted| - 1], sorted[|sorted| - 1];
      if Compare(last, v, options) <= 0.0 {
        forall i | 0 <= i < |sorted| ensures Compare(sorted[i], v, options) <= 0.0 {
          CompareIsConsistent(sorted[i], last, v, options);
        }
        AscendingSnoc(sorted, v, options);
      } else {
        InsertAscends(rest, v, options);
        CompareIsConsistent(last, v, last, options);
        InsertStaysUpTo(rest, v, last, options);
        AscendingSnoc(Insert(rest, v, options), last, options);
      }
    }
  }

  /** Inserting one variant after another is a stable sort, so by `StableSortIsUnique` it is the one. */
  lemma {:induction false} StableSortExists(vs: seq<Variant>, options: seq<DeliveryOption>)
    ensures IsStableSort(vs, Sorted(vs, options), options)
  {
    if vs != [] {
      var rest, last := vs[..|vs| - 1], vs[|vs| - 1];
      StableSortExists(rest, options);
      InsertAscends(Sorted(rest, options), last, options);
      forall v ensures Filter(Sorted(vs, options), EqualTo(v, options)) == Filter(vs, EqualTo(v, options)) {
        InsertFilters(Sorted(rest, options), last, v, options);
        FilterSnoc(Sorted(rest, options), last, EqualTo(v, options));
        FilterSnoc(rest, last, EqualTo(v, options));
        assert vs == rest + [last];
      }
    }
  }
}
