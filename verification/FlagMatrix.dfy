/** The expansion of one benchmark into configurations: flag zip, flag matrix, filter and copies. */
module FlagMatrix {
  import opened Arithmetic
  import opened Wrappers
  import opened Sorting

  type Value(!new)

  type Flags = map<string, Value>

  /** A flag with the values it is to take, as listed in a flag_zip or flag_matrix definition. */
  datatype Axis = Axis(flag: string, values: seq<Value>)

  /** globalFlags come from the user configuration, localFlags from the benchmark's own. */
  datatype Request = Request(globalFlags: Flags, localFlags: Flags, flagZip: seq<Axis>, flagMatrix: seq<Axis>)

  function Overlay(base: Flags, settings: seq<Flags>): Flags
    decreases |settings|
  {
    if settings == [] then base else Overlay(base + settings[0], settings[1..])
  }

  /** The flags of a configuration made from these settings. */
  function FlagsFor(r: Request, settings: seq<Flags>): Flags {
    Overlay(r.globalFlags + r.localFlags, settings)
  }

  function SettingsOf(axis: Axis): (s: seq<Flags>)
    ensures |s| == |axis.values|
  {
    seq(|axis.values|, i requires 0 <= i < |axis.values| => map[axis.flag := axis.values[i]])
  }

  predicate SameLength(axes: seq<Axis>) {
    forall a, b :: a in axes && b in axes ==> |a.values| == |b.values|
  }

  /** Row number i of the zip: the i-th value of every flag. */
  function ZipRow(axes: seq<Axis>, i: nat): (row: seq<Flags>)
    requires forall a :: a in axes ==> i < |a.values|
  {
    if axes == [] then [] else [map[axes[0].flag := axes[0].values[i]]] + ZipRow(axes[1..], i)
  }

  function ZipLength(r: Request): nat {
    if r.flagZip == [] then 1 else |r.flagZip[0].values|
  }

  /** The flags of the configurations that the zip rows make; these become one axis of the product. */
  function ZippedAxis(r: Request): seq<Flags>
    requires r.flagZip != [] && SameLength(r.flagZip)
  {
    assert r.flagZip[0] in r.flagZip;
    seq(ZipLength(r), i requires 0 <= i < ZipLength(r) => FlagsFor(r, ZipRow(r.flagZip, i)))
  }

  function ByFlag(): (Axis, Axis) -> bool {
    (a: Axis, b: Axis) => StringLe(a.flag, b.flag)
  }

  function MatrixAxes(axes: seq<Axis>): (r: seq<seq<Flags>>)
    ensures |r| == |axes| && forall i :: 0 <= i < |axes| ==> r[i] == SettingsOf(axes[i])
  {
    if axes == [] then [] else [SettingsOf(axes[0])] + MatrixAxes(axes[1..])
  }

  function CrossedAxes(r: Request): seq<seq<Flags>>
    requires SameLength(r.flagZip)
  {
    (if r.flagZip == [] then [] else [ZippedAxis(r)]) + MatrixAxes(Sort(r.flagMatrix, ByFlag()))
  }

  // ---------------------------------------------------------------------------------------------
  // The cartesian product

  function Prefixed<T>(x: T, tails: seq<seq<T>>): (r: seq<seq<T>>)
    ensures |r| == |tails| && forall i :: 0 <= i < |tails| ==> r[i] == [x] + tails[i]
  {
    if tails == [] then [] else [[x] + tails[0]] + Prefixed(x, tails[1..])
  }

  function PrefixedByEach<T>(xs: seq<T>, tails: seq<seq<T>>): seq<seq<T>> {
    if xs == [] then [] else Prefixed(xs[0], tails) + PrefixedByEach(xs[1..], tails)
  }

  /** itertools.product: the last axis changes fastest. */
  function Product<T>(axes: seq<seq<T>>): seq<seq<T>> {
    if axes == [] then [[]] else PrefixedByEach(axes[0], Product(axes[1..]))
  }

  function Sizes<T>(axes: seq<seq<T>>): (r: seq<nat>)
    ensures |r| == |axes| && forall i :: 0 <= i < |axes| ==> r[i] == |axes[i]|
  {
    if axes == [] then [] else [|axes[0]|] + Sizes(axes[1..])
  }

  function ProductOf(sizes: seq<nat>): nat {
    if sizes == [] then 1 else sizes[0] * ProductOf(sizes[1..])
  }

  /** The mixed-radix digits of k, most significant first. */
  function DigitsOf(sizes: seq<nat>, k: nat): (digits: seq<nat>)
    requires k < ProductOf(sizes)
    ensures |digits| == |sizes|
    decreases |sizes|
  {
    if sizes == [] then []
    else
      var rest := ProductOf(sizes[1..]);
      PositiveFactor(sizes[0], rest, k);
      [k / rest] + DigitsOf(sizes[1..], k % rest)
  }

  function NumberOf(sizes: seq<nat>, digits: seq<nat>): nat
    requires |sizes| == |digits|
  {
    if sizes == [] then 0 else digits[0] * ProductOf(sizes[1..]) + NumberOf(sizes[1..], digits[1..])
  }

  lemma PositiveFactor(a: nat, b: nat, k: nat)
    requires k < a * b
    ensures 0 < b && k / b < a
  {
    if a <= k / b { MulMonotonic(a, k / b, b); }
  }

  /** The digits are within the sizes, and stand for k; so distinct numbers have distinct digits. */
  lemma {:induction false} DigitsRoundTrip(sizes: seq<nat>, k: nat)
    requires k < ProductOf(sizes)
    ensures NumberOf(sizes, DigitsOf(sizes, k)) == k
    ensures forall i :: 0 <= i < |sizes| ==> DigitsOf(sizes, k)[i] < sizes[i]
    decreases |sizes|
  {
    if sizes != [] {
      var rest := ProductOf(sizes[1..]);
      PositiveFactor(sizes[0], rest, k);
      DigitsRoundTrip(sizes[1..], k % rest);
      assert DigitsOf(sizes, k)[1..] == DigitsOf(sizes[1..], k % rest);
    }
  }

  /** Every choice of digits occurs. */
  lemma {:induction false} NumberRoundTrip(sizes: seq<nat>, digits: seq<nat>)
    requires |sizes| == |digits| && forall i :: 0 <= i < |sizes| ==> digits[i] < sizes[i]
    ensures NumberOf(sizes, digits) < ProductOf(sizes) && DigitsOf(sizes, NumberOf(sizes, digits)) == digits
    decreases |sizes|
  {
    if sizes != [] {
      var rest := ProductOf(sizes[1..]);
      var low := NumberOf(sizes[1..], digits[1..]);
      NumberRoundTrip(sizes[1..], digits[1..]);
      Gap(digits[0], sizes[0], rest);
      DivUnique(digits[0] * rest + low, rest, digits[0], low);
      assert digits == [digits[0]] + digits[1..];
    }
  }

  function Chosen<T>(axes: seq<seq<T>>, digits: seq<nat>): (r: seq<T>)
    requires |axes| == |digits| && forall i :: 0 <= i < |axes| ==> digits[i] < |axes[i]|
    ensures |r| == |axes| && forall i :: 0 <= i < |axes| ==> r[i] == axes[i][digits[i]]
  {
    if axes == [] then [] else [axes[0][digits[0]]] + Chosen(axes[1..], digits[1..])
  }

  /** q times n by addition. */
  function Times(q: nat, n: nat): nat {
    if q == 0 then 0 else n + Times(q - 1, n)
  }

  lemma {:induction false} TimesIsProduct(q: nat, n: nat)
    ensures Times(q, n) == q * n
  {
    if q > 0 {
      TimesIsProduct(q - 1, n);
      assert q * n == n + (q - 1) * n;
    }
  }

  lemma {:induction false} PrefixedByEachAt<T>(xs: seq<T>, tails: seq<seq<T>>, q: nat, r: nat)
    requires q < |xs| && r < |tails|
    ensures Times(q, |tails|) + r < |PrefixedByEach(xs, tails)|
    ensures PrefixedByEach(xs, tails)[Times(q, |tails|) + r] == [xs[q]] + tails[r]
  {
    if q > 0 {
      PrefixedByEachAt(xs[1..], tails, q - 1, r);
    }
  }

  lemma {:induction false} PrefixedByEachSize<T>(xs: seq<T>, tails: seq<seq<T>>)
    ensures |PrefixedByEach(xs, tails)| == |xs| * |tails|
  {
    if xs != [] {
      PrefixedByEachSize(xs[1..], tails);
      assert |xs| * |tails| == |tails| + (|xs| - 1) * |tails|;
    }
  }

  lemma {:induction false} ProductSize<T>(axes: seq<seq<T>>)
    ensures |Product(axes)| == ProductOf(Sizes(axes))
  {
    if axes != [] {
      ProductSize(axes[1..]);
      PrefixedByEachSize(axes[0], Product(axes[1..]));
      assert Sizes(axes)[1..] == Sizes(axes[1..]);
    }
  }

  /** The combination of these choices stands at the number whose digits they are. */
  lemma {:induction false} ProductAtNumber<T>(axes: seq<seq<T>>, digits: seq<nat>)
    requires |axes| == |digits| && forall i :: 0 <= i < |axes| ==> digits[i] < |axes[i]|
    ensures NumberOf(Sizes(axes), digits) < |Product(axes)|
    ensures Product(axes)[NumberOf(Sizes(axes), digits)] == Chosen(axes, digits)
  {
    if axes != [] {
      var tails := Product(axes[1..]);
      assert Sizes(axes)[1..] == Sizes(axes[1..]);
      ProductSize(axes[1..]);
      ProductAtNumber(axes[1..], digits[1..]);
      PrefixedByEachAt(axes[0], tails, digits[0], NumberOf(Sizes(axes[1..]), digits[1..]));
      TimesIsProduct(digits[0], |tails|);
    }
  }

  /** The k-th combination takes from every axis the value that the k-th digit string says. */
  lemma ProductAt<T>(axes: seq<seq<T>>, k: nat)
    requires k < ProductOf(Sizes(axes))
    ensures |Product(axes)| == ProductOf(Sizes(axes))
    ensures var digits := DigitsOf(Sizes(axes), k);
      (forall i :: 0 <= i < |axes| ==> digits[i] < |axes[i]|) && Product(axes)[k] == Chosen(axes, digits)
  {
    ProductSize(axes);
    DigitsRoundTrip(Sizes(axes), k);
    ProductAtNumber(axes, DigitsOf(Sizes(axes), k));
  }

  // ---------------------------------------------------------------------------------------------
  // The configurations

  /** The flags of every configuration, one per combination. */
  function AllFlags(r: Request, combos: seq<seq<Flags>>): (fs: seq<Flags>)
    ensures |fs| == |combos| && forall k :: 0 <= k < |combos| ==> fs[k] == FlagsFor(r, combos[k])
  {
    if combos == [] then [] else [FlagsFor(r, combos[0])] + AllFlags(r, combos[1..])
  }

  lemma {:induction false} OverlayCovers(base: Flags, settings: seq<Flags>)
    ensures base.Keys <= Overlay(base, settings).Keys
    decreases |settings|
  {
    if settings != [] { OverlayCovers(base + settings[0], settings[1..]); }
  }

  /** The matrix flags in the order of their names, each with the value that its digit says. */
  function MatrixChoices(r: Request, digits: seq<nat>): seq<Flags>
    requires |digits| == |Sort(r.flagMatrix, ByFlag())|
    requires forall i :: 0 <= i < |digits| ==> digits[i] < |Sort(r.flagMatrix, ByFlag())[i].values|
  {
    var axes := Sort(r.flagMatrix, ByFlag());
    seq(|axes|, i requires 0 <= i < |axes| => map[axes[i].flag := axes[i].values[digits[i]]])
  }

  lemma MatrixCombination(r: Request, digits: seq<nat>)
    requires |digits| == |Sort(r.flagMatrix, ByFlag())|
    requires forall i :: 0 <= i < |digits| ==> digits[i] < |Sort(r.flagMatrix, ByFlag())[i].values|
    ensures Chosen(MatrixAxes(Sort(r.flagMatrix, ByFlag())), digits) == MatrixChoices(r, digits)
  {
  }

  /** Without a zip: global flags, then local flags, then the matrix choices. */
  lemma OverlayWithoutZip(r: Request, k: nat)
    requires r.flagZip == [] && k < |Product(CrossedAxes(r))|
    ensures |Product(CrossedAxes(r))| == ProductOf(Sizes(CrossedAxes(r)))
    ensures var digits := DigitsOf(Sizes(CrossedAxes(r)), k);
      && |digits| == |Sort(r.flagMatrix, ByFlag())|
      && (forall i :: 0 <= i < |digits| ==> digits[i] < |Sort(r.flagMatrix, ByFlag())[i].values|)
      && FlagsFor(r, Product(CrossedAxes(r))[k]) == Overlay(r.globalFlags + r.localFlags, MatrixChoices(r, digits))
  {
    var axes := CrossedAxes(r);
    ProductSize(axes);
    ProductAt(axes, k);
    assert axes == MatrixAxes(Sort(r.flagMatrix, ByFlag()));
    MatrixCombination(r, DigitsOf(Sizes(axes), k));
  }

  /** With a zip: global flags, then local flags, then one zip row, then the matrix choices, although the row
      enters the product as a whole configuration.  The zip digit is the most significant one. */
  lemma OverlayWithZip(r: Request, k: nat)
    requires r.flagZip != [] && SameLength(r.flagZip) && k < |Product(CrossedAxes(r))|
    ensures |Product(CrossedAxes(r))| == ProductOf(Sizes(CrossedAxes(r)))
    ensures var digits := DigitsOf(Sizes(CrossedAxes(r)), k);
      && |digits| == 1 + |Sort(r.flagMatrix, ByFlag())|
      && (forall a :: a in r.flagZip ==> digits[0] < |a.values|)
      && (forall i :: 0 <= i < |digits| - 1 ==> digits[1..][i] < |Sort(r.flagMatrix, ByFlag())[i].values|)
      && FlagsFor(r, Product(CrossedAxes(r))[k])
           == Overlay(Overlay(r.globalFlags + r.localFlags, ZipRow(r.flagZip, digits[0])),
                      MatrixChoices(r, digits[1..]))
  {
    var axes := CrossedAxes(r);
    var matrix := MatrixAxes(Sort(r.flagMatrix, ByFlag()));
    ProductSize(axes);
    ProductAt(axes, k);
    assert axes == [ZippedAxis(r)] + matrix;
    var digits := DigitsOf(Sizes(axes), k);
    ChosenStep(ZippedAxis(r), matrix, digits);
    MatrixCombination(r, digits[1..]);
    ZipDigit(r, digits[0]);
    ZipRowAbsorbsBase(r, digits[0], MatrixChoices(r, digits[1..]));
  }

  lemma ChosenStep<T>(axis: seq<T>, axes: seq<seq<T>>, digits: seq<nat>)
    requires |digits| == 1 + |axes|
    requires forall i :: 0 <= i < |digits| ==> digits[i] < |([axis] + axes)[i]|
    ensures digits[0] < |axis| && forall i :: 0 <= i < |axes| ==> digits[1..][i] < |axes[i]|
    ensures Chosen([axis] + axes, digits) == [axis[digits[0]]] + Chosen(axes, digits[1..])
  {
    assert ([axis] + axes)[1..] == axes;
    assert forall i :: 0 <= i < |axes| ==> ([axis] + axes)[1 + i] == axes[i] && digits[1..][i] == digits[1 + i];
  }

  lemma ZipDigit(r: Request, i: nat)
    requires r.flagZip != [] && SameLength(r.flagZip) && i < |ZippedAxis(r)|
    ensures (forall a :: a in r.flagZip ==> i < |a.values|) && ZippedAxis(r)[i] == FlagsFor(r, ZipRow(r.flagZip, i))
  {
    assert r.flagZip[0] in r.flagZip;
  }

  lemma ZipRowAbsorbsBase(r: Request, i: nat, choices: seq<Flags>)
    requires forall a :: a in r.flagZip ==> i < |a.values|
    ensures var row := FlagsFor(r, ZipRow(r.flagZip, i));
      FlagsFor(r, [row] + choices) == Overlay(row, choices)
  {
    var base := r.globalFlags + r.localFlags;
    var row := FlagsFor(r, ZipRow(r.flagZip, i));
    OverlayCovers(base, ZipRow(r.flagZip, i));
    assert base + row == row;
    assert ([row] + choices)[1..] == choices;
  }

  // ---------------------------------------------------------------------------------------------
  // The value of each flag

  ghost predicate SetsLast(settings: seq<Flags>, i: int, f: string) {
    0 <= i < |settings| && f in settings[i] && forall j :: i < j < |settings| ==> f !in settings[j]
  }

  /** The last setting of a flag takes effect, and the base where there is none. */
  lemma {:induction false} OverlayValue(base: Flags, settings: seq<Flags>, f: string)
    ensures f in Overlay(base, settings) <==> f in base || exists i :: 0 <= i < |settings| && f in settings[i]
    ensures f in base && (forall i :: 0 <= i < |settings| ==> f !in settings[i]) ==>
      Overlay(base, settings)[f] == base[f]
    ensures forall i :: SetsLast(settings, i, f) ==> Overlay(base, settings)[f] == settings[i][f]
    decreases |settings|
  {
    if settings != [] {
      var first, rest := settings[0], settings[1..];
      OverlayValue(base + first, rest, f);
      assert forall j :: 0 <= j < |rest| ==> rest[j] == settings[j + 1];
      if f in first { assert f in settings[0]; }
      forall i | SetsLast(settings, i, f) ensures Overlay(base, settings)[f] == settings[i][f] {
        if i > 0 { assert SetsLast(rest, i - 1, f); }
      }
    }
  }

  /** The i-th of these axes is the last one of the flag. */
  ghost predicate IsLastOf(axes: seq<Axis>, i: int, f: string) {
    0 <= i < |axes| && axes[i].flag == f && forall j :: i < j < |axes| ==> axes[j].flag != f
  }

  ghost predicate NoneOf(axes: seq<Axis>, f: string) {
    forall i :: 0 <= i < |axes| ==> axes[i].flag != f
  }

  /** The flag has its local value, or its global one where there is no local one. */
  ghost predicate IsBaseValue(r: Request, flags: Flags, f: string) {
    && (f in flags <==> f in r.localFlags || f in r.globalFlags)
    && (f in r.localFlags ==> flags[f] == r.localFlags[f])
    && (f in r.globalFlags && f !in r.localFlags ==> flags[f] == r.globalFlags[f])
  }

  /** The settings that axes make with these digits. */
  ghost predicate AreChoices(settings: seq<Flags>, axes: seq<Axis>, digits: seq<nat>) {
    && |settings| == |axes| == |digits|
    && (forall i :: 0 <= i < |axes| ==> digits[i] < |axes[i].values|)
    && (forall i :: 0 <= i < |axes| ==> settings[i] == map[axes[i].flag := axes[i].values[digits[i]]])
  }

  lemma ChoiceValue(base: Flags, settings: seq<Flags>, axes: seq<Axis>, digits: seq<nat>, f: string)
    requires AreChoices(settings, axes, digits)
    ensures forall i :: IsLastOf(axes, i, f) ==>
      f in Overlay(base, settings) && Overlay(base, settings)[f] == axes[i].values[digits[i]]
    ensures NoneOf(axes, f) ==>
      (f in Overlay(base, settings) <==> f in base) && (f in base ==> Overlay(base, settings)[f] == base[f])
  {
    OverlayValue(base, settings, f);
    forall i | 0 <= i < |axes| ensures f in settings[i] <==> axes[i].flag == f {}
    forall i | IsLastOf(axes, i, f) ensures SetsLast(settings, i, f) {}
  }

  lemma ZipRowChoices(axes: seq<Axis>, i: nat)
    requires forall a :: a in axes ==> i < |a.values|
    ensures AreChoices(ZipRow(axes, i), axes, seq(|axes|, _ => i))
  {
    if axes != [] {
      ZipRowChoices(axes[1..], i);
      forall a | 0 <= a < |axes| ensures ZipRow(axes, i)[a] == map[axes[a].flag := axes[a].values[i]] {
        assert axes[a] in axes;
        if a > 0 { assert axes[1..][a - 1] == axes[a] && ZipRow(axes[1..], i)[a - 1] == ZipRow(axes, i)[a]; }
      }
    }
  }

  lemma MatrixChoicesAre(r: Request, digits: seq<nat>)
    requires |digits| == |Sort(r.flagMatrix, ByFlag())|
    requires forall i :: 0 <= i < |digits| ==> digits[i] < |Sort(r.flagMatrix, ByFlag())[i].values|
    ensures AreChoices(MatrixChoices(r, digits), Sort(r.flagMatrix, ByFlag()), digits)
  {
  }

  /** Without a zip: in combination number k a flag of the matrix has the value that its digit of k says, and any
      other its local value, or else its global one. */
  lemma FlagsWithoutZip(r: Request, k: nat, f: string)
    requires r.flagZip == [] && k < |Product(CrossedAxes(r))|
    ensures |Product(CrossedAxes(r))| == ProductOf(Sizes(CrossedAxes(r)))
    ensures var axes, digits := Sort(r.flagMatrix, ByFlag()), DigitsOf(Sizes(CrossedAxes(r)), k);
      var flags := FlagsFor(r, Product(CrossedAxes(r))[k]);
      && |digits| == |axes| && (forall i :: 0 <= i < |axes| ==> digits[i] < |axes[i].values|)
      && (forall i :: IsLastOf(axes, i, f) ==> f in flags && flags[f] == axes[i].values[digits[i]])
      && (NoneOf(axes, f) ==> IsBaseValue(r, flags, f))
  {
    OverlayWithoutZip(r, k);
    var axes, digits := Sort(r.flagMatrix, ByFlag()), DigitsOf(Sizes(CrossedAxes(r)), k);
    MatrixChoicesAre(r, digits);
    ChoiceValue(r.globalFlags + r.localFlags, MatrixChoices(r, digits), axes, digits, f);
  }

  /** With a zip: a flag of the matrix has the value that its digit says, another one of the zip that of the row that
      the first digit says, and any other its local value, or else its global one. */
  lemma FlagsWithZip(r: Request, k: nat, f: string)
    requires r.flagZip != [] && SameLength(r.flagZip) && k < |Product(CrossedAxes(r))|
    ensures |Product(CrossedAxes(r))| == ProductOf(Sizes(CrossedAxes(r)))
    ensures var axes, digits := Sort(r.flagMatrix, ByFlag()), DigitsOf(Sizes(CrossedAxes(r)), k);
      var flags := FlagsFor(r, Product(CrossedAxes(r))[k]);
      && |digits| == 1 + |axes| && (forall i :: 0 <= i < |axes| ==> digits[1..][i] < |axes[i].values|)
      && (forall a :: 0 <= a < |r.flagZip| ==> digits[0] < |r.flagZip[a].values|)
      && (forall i :: IsLastOf(axes, i, f) ==> f in flags && flags[f] == axes[i].values[digits[1..][i]])
      && (NoneOf(axes, f) ==> forall a :: IsLastOf(r.flagZip, a, f) ==>
            f in flags && flags[f] == r.flagZip[a].values[digits[0]])
      && (NoneOf(axes, f) && NoneOf(r.flagZip, f) ==> IsBaseValue(r, flags, f))
  {
    OverlayWithZip(r, k);
    var axes, digits := Sort(r.flagMatrix, ByFlag()), DigitsOf(Sizes(CrossedAxes(r)), k);
    var base, row := r.globalFlags + r.localFlags, ZipRow(r.flagZip, digits[0]);
    MatrixChoicesAre(r, digits[1..]);
    ChoiceValue(Overlay(base, row), MatrixChoices(r, digits[1..]), axes, digits[1..], f);
    ZipRowChoices(r.flagZip, digits[0]);
    ChoiceValue(base, row, r.flagZip, seq(|r.flagZip|, _ => digits[0]), f);
  }

  /** How many configurations there are, and the order of the matrix flags. */
  lemma CombinationCount(r: Request)
    requires SameLength(r.flagZip)
    ensures |Product(CrossedAxes(r))| == |Kept(r, None)|
         == ZipLength(r) * ProductOf(Sizes(MatrixAxes(Sort(r.flagMatrix, ByFlag()))))
    ensures SortedBy(ByFlag(), Sort(r.flagMatrix, ByFlag()))
    ensures multiset(Sort(r.flagMatrix, ByFlag())) == multiset(r.flagMatrix)
  {
    ProductSize(CrossedAxes(r));
    CrossedSizes(r);
    ByFlagIsOrder();
    SortSorted(r.flagMatrix, ByFlag());
    SortContents(r.flagMatrix, ByFlag());
  }

  lemma CrossedSizes(r: Request)
    requires SameLength(r.flagZip)
    ensures ProductOf(Sizes(CrossedAxes(r)))
         == ZipLength(r) * ProductOf(Sizes(MatrixAxes(Sort(r.flagMatrix, ByFlag()))))
  {
    var matrix := MatrixAxes(Sort(r.flagMatrix, ByFlag()));
    if r.flagZip == [] {
      assert CrossedAxes(r) == matrix;
    } else {
      assert Sizes(CrossedAxes(r)) == [ZipLength(r)] + Sizes(matrix);
      assert ([ZipLength(r)] + Sizes(matrix))[1..] == Sizes(matrix);
    }
  }

  lemma ByFlagIsOrder()
    ensures TotalPreorder(ByFlag())
  {
    forall a: Axis, b: Axis ensures ByFlag()(a, b) || ByFlag()(b, a) { StringLeTotal(a.flag, b.flag); }
    forall a: Axis, b: Axis, c: Axis | ByFlag()(a, b) && ByFlag()(b, c) ensures ByFlag()(a, c) {
      StringLeTransitive(a.flag, b.flag, c.flag);
    }
  }

  /** The combinations that pass the filter, in order. */
  function KeptOf(r: Request, combos: seq<seq<Flags>>, filter: Option<Flags -> bool>): seq<Flags> {
    if filter.None? then AllFlags(r, combos) else Filter(AllFlags(r, combos), filter.value)
  }

  function Kept(r: Request, filter: Option<Flags -> bool>): seq<Flags>
    requires SameLength(r.flagZip)
  {
    KeptOf(r, Product(CrossedAxes(r)), filter)
  }

  /** Which combination each entry of the result comes from: every one in turn, in as many copies as asked for. */
  function Origins(n: nat, copies: int): (r: seq<nat>)
    ensures |r| == n * (if copies < 0 then 0 else copies)
    ensures forall e :: 0 <= e < |r| ==> r[e] < n
  {
    if n == 0 then []
    else
      var c: nat := if copies < 0 then 0 else copies;
      assert n * c == (n - 1) * c + c;
      Origins(n - 1, copies) + seq(c, _ => n - 1)
  }

  /** The entries come in the order of the combinations, the copies of one together. */
  lemma {:induction false} OriginAt(n: nat, copies: nat, e: nat)
    requires e < |Origins(n, copies)|
    ensures copies > 0 && Origins(n, copies)[e] == e / copies
  {
    assert n * copies == (n - 1) * copies + copies;
    if e < (n - 1) * copies {
      OriginAt(n - 1, copies, e);
    } else {
      DivUnique(e, copies, n - 1, e - (n - 1) * copies);
    }
  }

  /** A benchmark configuration; flags is the dictionary under its 'flags' key. */
  class BenchmarkConfig {
    var flags: Flags

    constructor (flags: Flags)
      ensures this.flags == flags
    {
      this.flags := flags;
    }

    method Update(setting: Flags)
      modifies this
      ensures flags == old(flags) + setting
    {
      flags := flags + setting;
    }
  }

  method GetConfigForAxis(r: Request, flagConfig: seq<Flags>) returns (config: BenchmarkConfig)
    ensures fresh(config) && config.flags == FlagsFor(r, flagConfig)
  {
    config := new BenchmarkConfig(r.globalFlags);
    config.Update(r.localFlags);
    for i := 0 to |flagConfig|
      invariant fresh(config)
      invariant Overlay(config.flags, flagConfig[i..]) == FlagsFor(r, flagConfig)
    {
      config.Update(flagConfig[i]);
    }
  }

  lemma KeptStep(r: Request, combos: seq<seq<Flags>>, i: nat, filter: Option<Flags -> bool>)
    requires i < |combos|
    ensures var flags := FlagsFor(r, combos[i]);
      KeptOf(r, combos[..i + 1], filter)
        == KeptOf(r, combos[..i], filter) + if filter.None? || filter.value(flags) then [flags] else []
  {
    assert AllFlags(r, combos[..i + 1]) == AllFlags(r, combos[..i]) + [FlagsFor(r, combos[i])];
    if filter.Some? { FilterAppend(AllFlags(r, combos[..i]), FlagsFor(r, combos[i]), filter.value); }
  }

  /** The configurations stand for the kept flags in order, each as often as asked for; the copies of one
      share a configuration and different ones never do. */
  ghost predicate Represents(configs: seq<BenchmarkConfig>, kept: seq<Flags>, copies: int)
    reads configs
  {
    var origins := Origins(|kept|, copies);
    && |configs| == |origins|
    && (forall e :: 0 <= e < |origins| ==> configs[e].flags == kept[origins[e]])
    && (forall e, f :: 0 <= e < |origins| && 0 <= f < |origins| ==> (
          configs[e] == configs[f] <==> origins[e] == origins[f]))
  }

  lemma AppendCopies(configs: seq<BenchmarkConfig>, kept: seq<Flags>, copies: int, config: BenchmarkConfig)
    requires Represents(configs, kept, copies) && config !in configs
    ensures Represents(configs + seq(if copies < 0 then 0 else copies, _ => config), kept + [config.flags], copies)
  {
    var c: nat := if copies < 0 then 0 else copies;
    var n := |kept|;
    assert Origins(n + 1, copies) == Origins(n, copies) + seq(c, _ => n);
  }

  method ExpandConfigs(r: Request, filter: Option<Flags -> bool>, copies: int)
    returns (result: Option<seq<BenchmarkConfig>>)
    ensures result.Some? <==> SameLength(r.flagZip)
    ensures result.Some? ==> Represents(result.value, Kept(r, filter), copies)
    ensures result.Some? ==> forall e :: 0 <= e < |result.value| ==> fresh(result.value[e])
  {
    for j := 0 to |r.flagZip|
      invariant forall i :: 0 <= i < j ==> |r.flagZip[i].values| == |r.flagZip[0].values|
    {
      if |r.flagZip[j].values| != |r.flagZip[0].values| {
        assert r.flagZip[j] in r.flagZip && r.flagZip[0] in r.flagZip;
        return None;
      }
    }
    assert SameLength(r.flagZip);
    var combos := Product(CrossedAxes(r));
    var configs: seq<BenchmarkConfig> := [];
    for i := 0 to |combos|
      invariant Represents(configs, KeptOf(r, combos[..i], filter), copies)
      invariant forall e :: 0 <= e < |configs| ==> fresh(configs[e])
    {
      KeptStep(r, combos, i, filter);
      ghost var kept := KeptOf(r, combos[..i], filter);
      var config := GetConfigForAxis(r, combos[i]);
      if filter.Some? && !filter.value(config.flags) {
        continue;
      }
      AppendCopies(configs, kept, copies, config);
      configs := configs + seq(if copies < 0 then 0 else copies, _ => config);
    }
    assert combos[..|combos|] == combos;
    return Some(configs);
  }
}
