/** The result table's layout: the four-level row index
    `(host, sort, type, length)`, the order the benchmark loop visits it in,
    and the column names. */
module Table {
  import opened Seqs
  import opened Shapes
  import opened Lengths

  /** The keys of the sort dictionary, in insertion order. */
  datatype SortKind = Quicksort | Mergesort | Heapsort

  /** The `kind` argument handed to `numpy.sort`, and the `sort` label. */
  function KindName(kind: SortKind): string {
    match kind
    case Quicksort => "quicksort"
    case Mergesort => "mergesort"
    case Heapsort => "heapsort"
  }

  const AllKinds: seq<SortKind> := [Quicksort, Mergesort, Heapsort]

  /** One row label of the table. */
  datatype Key = Key(host: string, sort: SortKind, shape: Shape, length: nat)

  /** The benchmark's global settings, made explicit. */
  datatype Config = Config(
    host: string,
    kinds: seq<SortKind>,
    shapes: seq<Shape>,
    lengths: seq<nat>,
    repeats: nat)

  /** Dictionary keys are distinct, and so are the generated lengths. */
  ghost predicate Valid(cfg: Config) {
    NoDup(cfg.kinds) && NoDup(cfg.shapes) && NoDup(cfg.lengths)
  }

  /** A key belongs to the configured iteration space. */
  ghost predicate InSpace(cfg: Config, key: Key) {
    key.host == cfg.host && key.sort in cfg.kinds && key.shape in cfg.shapes && key.length in cfg.lengths
  }

  /** The settings of the script, for a given host name, power and repeat
      count (the script uses `maxPow = 9` and `repeats = 5`). */
  function BenchConfig(host: string, maxPow: nat, repeats: nat): (cfg: Config)
    requires maxPow >= 1
    ensures Valid(cfg)
    ensures |cfg.kinds| == 3 && |cfg.shapes| == 4 && |cfg.lengths| == 5 + 9 * (maxPow - 1)
  {
    LengthsIncreasing(maxPow);
    Config(host, AllKinds, AllShapes, ArrayLengths(maxPow), repeats)
  }

  // ---------------------------------------------------------------------
  // Index order: host, then sort, then type, then length (the product's
  // last factor varies fastest).
  // ---------------------------------------------------------------------

  /** The rows of one `(sort, type)` pair, one per length. */
  function LengthRun(host: string, kind: SortKind, shape: Shape, lengths: seq<nat>): seq<Key> {
    seq(|lengths|, l requires 0 <= l < |lengths| => Key(host, kind, shape, lengths[l]))
  }

  /** The rows of one sort kind, type by type. */
  function KindBlock(host: string, kind: SortKind, shapes: seq<Shape>, lengths: seq<nat>): seq<Key> {
    Flatten(seq(|shapes|, j requires 0 <= j < |shapes| => LengthRun(host, kind, shapes[j], lengths)))
  }

  /** Every row of the table, in index order. */
  function IndexKeys(cfg: Config): seq<Key> {
    Flatten(seq(|cfg.kinds|, i requires 0 <= i < |cfg.kinds| => KindBlock(cfg.host, cfg.kinds[i], cfg.shapes, cfg.lengths)))
  }

  lemma LengthRunFacts(host: string, kind: SortKind, shape: Shape, lengths: seq<nat>)
    ensures |LengthRun(host, kind, shape, lengths)| == |lengths|
    ensures forall key: Key :: key in LengthRun(host, kind, shape, lengths) <==>
              key.host == host && key.sort == kind && key.shape == shape && key.length in lengths
    ensures NoDup(lengths) ==> NoDup(LengthRun(host, kind, shape, lengths))
  {
    var r := LengthRun(host, kind, shape, lengths);
    forall key: Key | key.host == host && key.sort == kind && key.shape == shape && key.length in lengths
      ensures key in r
    {
      var l :| 0 <= l < |lengths| && lengths[l] == key.length;
      assert r[l] == key;
    }
  }

  lemma KindBlockFacts(host: string, kind: SortKind, shapes: seq<Shape>, lengths: seq<nat>)
    ensures |KindBlock(host, kind, shapes, lengths)| == |shapes| * |lengths|
    ensures forall key: Key :: key in KindBlock(host, kind, shapes, lengths) <==>
              key.host == host && key.sort == kind && key.shape in shapes && key.length in lengths
    ensures NoDup(shapes) && NoDup(lengths) ==> NoDup(KindBlock(host, kind, shapes, lengths))
  {
    var ss := seq(|shapes|, j requires 0 <= j < |shapes| => LengthRun(host, kind, shapes[j], lengths));
    forall j | 0 <= j < |shapes| {
      LengthRunFacts(host, kind, shapes[j], lengths);
    }
    FlattenUniform(ss, |lengths|);
    forall key: Key
      ensures key in Flatten(ss) <==>
                key.host == host && key.sort == kind && key.shape in shapes && key.length in lengths
    {
      FlattenMember(ss, key);
      if key.shape in shapes {
        var j :| 0 <= j < |shapes| && shapes[j] == key.shape;
        assert key in ss[j] <==> key.host == host && key.sort == kind && key.length in lengths;
      }
    }
    if NoDup(shapes) && NoDup(lengths) {
      FlattenNoDup(ss);
    }
  }

  /** The index holds exactly the keys of the iteration space, each once,
      `|sorts| * |types| * |lengths|` of them. */
  lemma IndexKeysFacts(cfg: Config)
    ensures |IndexKeys(cfg)| == |cfg.kinds| * (|cfg.shapes| * |cfg.lengths|)
    ensures forall key: Key :: key in IndexKeys(cfg) <==> InSpace(cfg, key)
    ensures Valid(cfg) ==> NoDup(IndexKeys(cfg))
  {
    var ss := seq(|cfg.kinds|, i requires 0 <= i < |cfg.kinds| => KindBlock(cfg.host, cfg.kinds[i], cfg.shapes, cfg.lengths));
    forall i | 0 <= i < |cfg.kinds| {
      KindBlockFacts(cfg.host, cfg.kinds[i], cfg.shapes, cfg.lengths);
    }
    FlattenUniform(ss, |cfg.shapes| * |cfg.lengths|);
    forall key: Key
      ensures key in Flatten(ss) <==> InSpace(cfg, key)
    {
      FlattenMember(ss, key);
      if key.sort in cfg.kinds {
        var i :| 0 <= i < |cfg.kinds| && cfg.kinds[i] == key.sort;
        assert key in ss[i] <==> key.host == cfg.host && key.shape in cfg.shapes && key.length in cfg.lengths;
      }
    }
    if Valid(cfg) {
      FlattenNoDup(ss);
    }
  }

  // ---------------------------------------------------------------------
  // Loop order: length outermost, then sort, then type innermost.
  // ---------------------------------------------------------------------

  /** The cells visited for one length and one sort kind, type by type. */
  function ShapeRun(host: string, kind: SortKind, shapes: seq<Shape>, length: nat): seq<Key> {
    seq(|shapes|, j requires 0 <= j < |shapes| => Key(host, kind, shapes[j], length))
  }

  /** The cells visited for one length, sort kind by sort kind. */
  function LengthBlock(host: string, kinds: seq<SortKind>, shapes: seq<Shape>, length: nat): seq<Key> {
    Flatten(seq(|kinds|, i requires 0 <= i < |kinds| => ShapeRun(host, kinds[i], shapes, length)))
  }

  /** Every cell in the order the benchmark loop visits it. */
  function LoopKeys(cfg: Config): seq<Key> {
    Flatten(seq(|cfg.lengths|, l requires 0 <= l < |cfg.lengths| => LengthBlock(cfg.host, cfg.kinds, cfg.shapes, cfg.lengths[l])))
  }

  lemma ShapeRunFacts(host: string, kind: SortKind, shapes: seq<Shape>, length: nat)
    ensures |ShapeRun(host, kind, shapes, length)| == |shapes|
    ensures forall key: Key :: key in ShapeRun(host, kind, shapes, length) <==>
              key.host == host && key.sort == kind && key.shape in shapes && key.length == length
    ensures NoDup(shapes) ==> NoDup(ShapeRun(host, kind, shapes, length))
  {
    var r := ShapeRun(host, kind, shapes, length);
    forall key: Key | key.host == host && key.sort == kind && key.shape in shapes && key.length == length
      ensures key in r
    {
      var j :| 0 <= j < |shapes| && shapes[j] == key.shape;
      assert r[j] == key;
    }
  }

  lemma LengthBlockFacts(host: string, kinds: seq<SortKind>, shapes: seq<Shape>, length: nat)
    ensures |LengthBlock(host, kinds, shapes, length)| == |kinds| * |shapes|
    ensures forall key: Key :: key in LengthBlock(host, kinds, shapes, length) <==>
              key.host == host && key.sort in kinds && key.shape in shapes && key.length == length
    ensures NoDup(kinds) && NoDup(shapes) ==> NoDup(LengthBlock(host, kinds, shapes, length))
  {
    var ss := seq(|kinds|, i requires 0 <= i < |kinds| => ShapeRun(host, kinds[i], shapes, length));
    forall i | 0 <= i < |kinds| {
      ShapeRunFacts(host, kinds[i], shapes, length);
    }
    FlattenUniform(ss, |shapes|);
    forall key: Key
      ensures key in Flatten(ss) <==>
                key.host == host && key.sort in kinds && key.shape in shapes && key.length == length
    {
      FlattenMember(ss, key);
      if key.sort in kinds {
        var i :| 0 <= i < |kinds| && kinds[i] == key.sort;
        assert key in ss[i] <==> key.host == host && key.shape in shapes && key.length == length;
      }
    }
    if NoDup(kinds) && NoDup(shapes) {
      FlattenNoDup(ss);
    }
  }

  /** The loop visits exactly the keys of the iteration space, each once. */
  lemma LoopKeysFacts(cfg: Config)
    ensures |LoopKeys(cfg)| == |cfg.lengths| * (|cfg.kinds| * |cfg.shapes|)
    ensures forall key: Key :: key in LoopKeys(cfg) <==> InSpace(cfg, key)
    ensures Valid(cfg) ==> NoDup(LoopKeys(cfg))
  {
    var ss := seq(|cfg.lengths|, l requires 0 <= l < |cfg.lengths| => LengthBlock(cfg.host, cfg.kinds, cfg.shapes, cfg.lengths[l]));
    forall l | 0 <= l < |cfg.lengths| {
      LengthBlockFacts(cfg.host, cfg.kinds, cfg.shapes, cfg.lengths[l]);
    }
    FlattenUniform(ss, |cfg.kinds| * |cfg.shapes|);
    forall key: Key
      ensures key in Flatten(ss) <==> InSpace(cfg, key)
    {
      FlattenMember(ss, key);
      if key.length in cfg.lengths {
        var l :| 0 <= l < |cfg.lengths| && cfg.lengths[l] == key.length;
        assert key in ss[l] <==> key.host == cfg.host && key.sort in cfg.kinds && key.shape in cfg.shapes;
      }
    }
    if Valid(cfg) {
      FlattenNoDup(ss);
    }
  }

  /** The loop visits every row of the index exactly once: both orders hold
      the same `|sorts| * |types| * |lengths|` distinct keys. */
  lemma LoopCoversIndex(cfg: Config)
    requires Valid(cfg)
    ensures Elems(LoopKeys(cfg)) == Elems(IndexKeys(cfg))
    ensures NoDup(LoopKeys(cfg)) && NoDup(IndexKeys(cfg))
    ensures |Elems(IndexKeys(cfg))| == |cfg.kinds| * |cfg.shapes| * |cfg.lengths|
  {
    SameKeys(cfg);
    IndexCount(cfg);
  }

  /** Both orders enumerate the same set of keys. */
  lemma SameKeys(cfg: Config)
    ensures Elems(LoopKeys(cfg)) == Elems(IndexKeys(cfg))
    ensures Valid(cfg) ==> NoDup(LoopKeys(cfg))
  {
    IndexKeysFacts(cfg);
    LoopKeysFacts(cfg);
    var a, b := Elems(LoopKeys(cfg)), Elems(IndexKeys(cfg));
    assert forall key: Key :: key in a <==> InSpace(cfg, key);
    assert forall key: Key :: key in b <==> InSpace(cfg, key);
  }

  /** The index holds `|sorts| * |types| * |lengths|` distinct keys. */
  lemma IndexCount(cfg: Config)
    requires Valid(cfg)
    ensures NoDup(IndexKeys(cfg))
    ensures |Elems(IndexKeys(cfg))| == |cfg.kinds| * |cfg.shapes| * |cfg.lengths|
  {
    var k, s, l := |cfg.kinds|, |cfg.shapes|, |cfg.lengths|;
    IndexKeysFacts(cfg);
    CardElems(IndexKeys(cfg));
    assert k * (s * l) == k * s * l;
  }


  // ---------------------------------------------------------------------
  // Columns: `time`, `sigma`, `t0`, ..., `t{repeats-1}`.
  // ---------------------------------------------------------------------

  function DigitChar(d: nat): char
    requires d < 10
  {
    ('0' as int + d) as char
  }

  ghost predicate IsDigit(c: char) {
    '0' <= c <= '9'
  }

  /** Python's `str` of a non-negative integer: decimal, no leading zeros. */
  function DecimalString(n: nat): (r: string)
    ensures 1 <= |r|
    ensures forall i :: 0 <= i < |r| ==> IsDigit(r[i])
    ensures |r| == 1 <==> n < 10
    ensures r[|r| - 1] == DigitChar(n % 10)
  {
    if n < 10 then [DigitChar(n)] else DecimalString(n / 10) + [DigitChar(n % 10)]
  }

  /** Distinct numbers print differently. */
  lemma {:induction false} DecimalStringInjective(a: nat, b: nat)
    requires a != b
    ensures DecimalString(a) != DecimalString(b)
  {
    var sa, sb := DecimalString(a), DecimalString(b);
    if a % 10 != b % 10 {
      assert DigitChar(a % 10) != DigitChar(b % 10);
      assert sa[|sa| - 1] != sb[|sb| - 1];
    } else if a >= 10 && b >= 10 {
      assert a == 10 * (a / 10) + a % 10 && b == 10 * (b / 10) + b % 10;
      DecimalStringInjective(a / 10, b / 10);
      assert sa[..|sa| - 1] == DecimalString(a / 10);
      assert sb[..|sb| - 1] == DecimalString(b / 10);
    } else {
      assert a < 10 || b < 10;
      assert a >= 10 || b >= 10;
      assert |sa| != |sb|;
    }
  }

  /** The trial column for repeat `i`. */
  function TrialColumn(i: nat): string {
    "t" + DecimalString(i)
  }

  /** All column names of the table. */
  function Columns(repeats: nat): (r: seq<string>)
    ensures |r| == repeats + 2
    ensures r[0] == "time" && r[1] == "sigma"
    ensures forall i :: 2 <= i < repeats + 2 ==> r[i] == TrialColumn(i - 2)
  {
    ["time", "sigma"] + seq(repeats, i requires 0 <= i < repeats => TrialColumn(i))
  }

  /** The `repeats + 2` column names are pairwise distinct. */
  lemma ColumnsDistinct(repeats: nat)
    ensures NoDup(Columns(repeats))
  {
    var r := Columns(repeats);
    forall i, j | 0 <= i < j < |r|
      ensures r[i] != r[j]
    {
      if i >= 2 {
        TrialColumnsDiffer(i - 2, j - 2);
      } else if j >= 2 {
        NotTrialColumn(j - 2);
      }
    }
  }

  /** Distinct repeats get distinct trial columns. */
  lemma TrialColumnsDiffer(a: nat, b: nat)
    requires a != b
    ensures TrialColumn(a) != TrialColumn(b)
  {
    DecimalStringInjective(a, b);
    assert TrialColumn(a)[1..] == DecimalString(a);
    assert TrialColumn(b)[1..] == DecimalString(b);
  }

  /** A trial column is neither `time` nor `sigma`: its second character
      is a digit. */
  lemma NotTrialColumn(a: nat)
    ensures TrialColumn(a) != "time" && TrialColumn(a) != "sigma"
  {
    var c := TrialColumn(a);
    assert c[0] == 't' && c[1] == DecimalString(a)[0];
    assert IsDigit(c[1]);
    assert "time"[1] == 'i' && "sigma"[0] == 's';
  }


  // ---------------------------------------------------------------------
  // What the cells of the sweep actually sort.
  // ---------------------------------------------------------------------

  /** An even number is `0` or `2` modulo four. */
  lemma EvenModFour(n: nat)
    requires n % 2 == 0
    ensures n % 4 == 0 || n % 4 == 2
  {
  }

  /** Length `i` of the sweep never makes the median killer raise, since
      every length is even; the array a cell sorts is a permutation of
      `arange(n)` exactly for `sorted`, `reversed`, and for `median-killer`
      away from the seven lengths `2, 6, 10, 30, 50, 70, 90` at the even
      indices below 13. */
  lemma CellInputs(maxPow: nat, i: nat, shape: Shape)
    requires maxPow >= 1 && i < |ArrayLengths(maxPow)|
    ensures !Generate(shape, Canonical(ArrayLengths(maxPow)[i])).StackMismatch?
    ensures var n := ArrayLengths(maxPow)[i];
            (Generate(shape, Canonical(n)).Array? && multiset(Generate(shape, Canonical(n)).elems) == multiset(Canonical(n)))
            <==> shape in {Sorted, Reversed} || (shape == MedianKiller && !(i < 13 && i % 2 == 0))
  {
    var n := ArrayLengths(maxPow)[i];
    var cell := i < 13 && i % 2 == 0;
    assert n % 4 != 1 && (n % 4 == 0 <==> !cell) by {
      assert n == LengthAt(i);
      LengthAtEven(i);
      LengthAtTwoModFour(i);
      EvenModFour(n);
    }
    GeneratePermutation(shape, n);
  }
}
