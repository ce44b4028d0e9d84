/** How the executor adds up the options of a message into a destination amount and an amount of gas: one
    loop, two running totals, a map of compose gas by index and the list of distinct indices.  The result
    has a closed form that does not depend on the order of the options. */
module ExecutorQuote {
  import opened Arithmetic
  import opened Common
  import opened Bytes
  import opened Options
  import opened PacketCodec

  const OPTION_TYPE_LZCOMPOSE: byte := 3
  const OPTION_TYPE_ORDERED_EXECUTION: byte := 4

  datatype Meaning =
    | Receive(gas: u128, value: u128)
    | NativeDrop(amount: u128)
    | Compose(index: u16, gas: u128, value: u128)
    | Ordered

  /** The three parameter decoders, by option type. */
  function MeaningOf(o: LzOption): Result<Meaning> {
    var p := o.params;
    if o.optionType == OPTION_TYPE_LZRECEIVE then
      var _ :- Require(|p| == 16 || |p| == 32, InvalidSize);
      Ok(Receive(U128At(p, 0), if |p| == 32 then U128At(p, 16) else 0))
    else if o.optionType == OPTION_TYPE_NATIVE_DROP then
      var _ :- Require(|p| == 48, InvalidSize);
      Ok(NativeDrop(U128At(p, 0)))
    else if o.optionType == OPTION_TYPE_LZCOMPOSE then
      var _ :- Require(|p| == 18 || |p| == 34, InvalidSize);
      Ok(Compose(U16At(p, 0), U128At(p, 2), if |p| == 34 then U128At(p, 18) else 0))
    else if o.optionType == OPTION_TYPE_ORDERED_EXECUTION then Ok(Ordered)
    else Err(UnsupportedOptionType)
  }

  /** The executor reads from a built option the numbers that it was built from. */
  lemma BuiltOptionsAreRead(gas: u128, value: u128, receiver: Bytes32)
    ensures MeaningOf(LzReceiveEntry(gas, value).option) == Ok(Receive(gas, value))
    ensures MeaningOf(NativeDropEntry(value, receiver).option) == Ok(NativeDrop(value))
  {
    FieldWidths();
    FromToBytes(gas, 16);
    FromToBytes(value, 16);
    hide FromBytes, ToBytes, Pow256;
    var both := LzReceiveEntry(gas, value).option.params;
    assert both[0..16] == ToBytes(gas, 16) && (value != 0 ==> both[16..32] == ToBytes(value, 16));
    assert (ToBytes(value, 16) + receiver)[0..16] == ToBytes(value, 16);
  }

  /** A compose option, as a sender writes it: index, gas, and a value if there is one. */
  lemma ComposeIsRead(index: u16, gas: u128, value: u128)
    ensures MeaningOf(LzOption(3, ToBytes(index, 2) + ToBytes(gas, 16))) == Ok(Compose(index, gas, 0))
    ensures MeaningOf(LzOption(3, ToBytes(index, 2) + ToBytes(gas, 16) + ToBytes(value, 16))) == Ok(Compose(index, gas, value))
  {
    FieldWidths();
    FromToBytes(index, 2);
    FromToBytes(gas, 16);
    FromToBytes(value, 16);
    hide FromBytes, ToBytes, Pow256;
    var short := ToBytes(index, 2) + ToBytes(gas, 16);
    var long := short + ToBytes(value, 16);
    assert short[0..2] == ToBytes(index, 2) == long[0..2] && short[2..18] == ToBytes(gas, 16) == long[2..18];
    assert long[18..34] == ToBytes(value, 16);
  }

  /** Which options can be read at all, and why the others cannot. */
  lemma ReadableExactly(o: LzOption)
    ensures MeaningOf(o).Ok? <==>
            || (o.optionType == 1 && |o.params| in {16, 32})
            || (o.optionType == 2 && |o.params| == 48)
            || (o.optionType == 3 && |o.params| in {18, 34})
            || o.optionType == 4
    ensures MeaningOf(o) == Ok(Ordered) <==> o.optionType == 4
    ensures MeaningOf(o).Err? ==>
              MeaningOf(o) == Err(if 1 <= o.optionType <= 3 then InvalidSize else UnsupportedOptionType)
  {
  }

  datatype DstConfig = DstConfig(lzReceiveBaseGas: u64, lzComposeBaseGas: u64, nativeDropCap: u128)

  datatype Totals = Totals(dstAmount: u128, gas: u128)

  // ---------- sums over options ----------

  /** What one option adds to one of the totals. */
  datatype Weight = ReceiveGas | Value | ComposeGas | ComposeGasAt(index: u16) | ComposeCount

  function WeightOf(w: Weight, o: LzOption): nat {
    match MeaningOf(o)
    case Err(_) => 0
    case Ok(Receive(gas, value)) => if w == ReceiveGas then gas else if w == Value then value else 0
    case Ok(NativeDrop(amount)) => if w == Value then amount else 0
    case Ok(Compose(index, gas, value)) =>
      (match w
       case Value => value
       case ComposeGas => gas
       case ComposeGasAt(i) => if i == index then gas else 0
       case ComposeCount => 1
       case ReceiveGas => 0)
    case Ok(Ordered) => 0
  }

  function Sum(w: Weight, options: seq<LzOption>): nat {
    if options == [] then 0 else Sum(w, options[..|options| - 1]) + WeightOf(w, options[|options| - 1])
  }

  predicate Readable(options: seq<LzOption>) {
    forall o | o in options :: MeaningOf(o).Ok?
  }

  predicate IsOrdered(options: seq<LzOption>) {
    exists o | o in options :: MeaningOf(o) == Ok(Ordered)
  }

  predicate ComposesAt(o: LzOption, index: u16) {
    MeaningOf(o).Ok? && MeaningOf(o).value.Compose? && MeaningOf(o).value.index == index
  }

  /** The distinct compose indices. */
  ghost function Indices(options: seq<LzOption>): set<u16> {
    set o | o in options && MeaningOf(o).Ok? && MeaningOf(o).value.Compose? :: MeaningOf(o).value.index
  }

  lemma IndicesAppend(options: seq<LzOption>, o: LzOption)
    ensures Indices(options + [o]) == Indices(options)
            + if MeaningOf(o).Ok? && MeaningOf(o).value.Compose? then {MeaningOf(o).value.index} else {}
  {
  }

  lemma SumAppend(w: Weight, options: seq<LzOption>, o: LzOption)
    ensures Sum(w, options + [o]) == Sum(w, options) + WeightOf(w, o)
  {
  }

  lemma {:induction false} SumConcat(w: Weight, one: seq<LzOption>, two: seq<LzOption>)
    ensures Sum(w, one + two) == Sum(w, one) + Sum(w, two)
  {
    if two == [] {
      assert one + two == one;
    } else {
      var front, last := two[..|two| - 1], two[|two| - 1];
      SumConcat(w, one, front);
      SumAppend(w, one + front, last);
      assert one + two == one + front + [last];
    }
  }

  lemma SumMiddle(w: Weight, before: seq<LzOption>, after: seq<LzOption>, o: LzOption)
    ensures Sum(w, before + [o] + after) == Sum(w, before + after) + WeightOf(w, o)
  {
    hide Sum, WeightOf;
    SumConcat(w, before, after);
    SumAppend(w, before, o);
    SumConcat(w, before + [o], after);
  }

  /** Sums do not depend on the order. */
  lemma {:induction false} SumOfPermutation(w: Weight, one: seq<LzOption>, two: seq<LzOption>)
    requires multiset(one) == multiset(two)
    ensures Sum(w, one) == Sum(w, two)
  {
    if one == [] {
      assert |multiset(two)| == 0;
      assert two == [];
    } else {
      var last := one[|one| - 1];
      assert one == one[..|one| - 1] + [last];
      assert last in multiset(one);
      var i :| 0 <= i < |two| && two[i] == last;
      var before, after := two[..i], two[i + 1..];
      assert two == before + [last] + after;
      hide Sum, WeightOf;
      RemoveOne(one[..|one| - 1], before, after, last);
      SumOfPermutation(w, one[..|one| - 1], before + after);
      SumAppend(w, one[..|one| - 1], last);
      SumMiddle(w, before, after, last);
    }
  }

  lemma RemoveOne(front: seq<LzOption>, before: seq<LzOption>, after: seq<LzOption>, o: LzOption)
    requires multiset(front + [o]) == multiset(before + [o] + after)
    ensures multiset(front) == multiset(before + after)
  {
    assert multiset(front + [o]) - multiset{o} == multiset(front);
    assert multiset(before + [o] + after) - multiset{o} == multiset(before + after);
  }

  // ---------- the closed form ----------

  function Times(a: nat, b: nat): nat {
    ProductIsNat(a, b);
    a * b
  }

  /** Gas before the uplift: the two base costs, every receive gas, and the gas of every compose index. */
  ghost function PlainGas(options: seq<LzOption>, c: DstConfig): nat {
    c.lzReceiveBaseGas + Sum(ReceiveGas, options) + Times(c.lzComposeBaseGas, |Indices(options)|) + Sum(ComposeGas, options)
  }

  /** Ordered execution costs two percent more. */
  function Uplift(ordered: bool, gas: nat): nat {
    if ordered then gas * 102 / 100 else gas
  }

  /** The product on the way, which must fit. */
  function Scaled(ordered: bool, gas: nat): (r: nat)
    ensures gas <= r
  {
    if ordered then gas * 102 else gas
  }

  ghost predicate Acceptable(options: seq<LzOption>, c: DstConfig) {
    && c.lzReceiveBaseGas > 0
    && Readable(options)
    && Sum(Value, options) <= c.nativeDropCap
    && Sum(ReceiveGas, options) > 0
    && (forall i | i in Indices(options) :: Sum(ComposeGasAt(i), options) > 0)
    && Scaled(IsOrdered(options), PlainGas(options, c)) <= U128_MAX
  }

  /** What is wrong with the options when the program reports an error. */
  ghost predicate Fault(options: seq<LzOption>, c: DstConfig, e: Error) {
    if e == EidNotSupported then c.lzReceiveBaseGas == 0
    else if e == NativeAmountExceedsCap then Readable(options) && Sum(Value, options) > c.nativeDropCap
    else if e == ZeroLzReceiveGasProvided then
      Readable(options) && Sum(Value, options) <= c.nativeDropCap && Sum(ReceiveGas, options) == 0
    else if e == ZeroLzComposeGasProvided then
      Readable(options) && exists i :: i in Indices(options) && Sum(ComposeGasAt(i), options) == 0
    else if e == Abort then Sum(Value, options) > U128_MAX || Scaled(IsOrdered(options), PlainGas(options, c)) > U128_MAX
    else exists o :: o in options && MeaningOf(o) == Err(e)
  }

  lemma FaultRefuses(options: seq<LzOption>, c: DstConfig, e: Error)
    ensures Fault(options, c, e) ==> !Acceptable(options, c)
  {
    hide Sum, Indices, MeaningOf, PlainGas, IsOrdered, Scaled;
  }

  ghost function Closed(options: seq<LzOption>, c: DstConfig): (int, int) {
    (Sum(Value, options), Uplift(IsOrdered(options), PlainGas(options, c)))
  }

  /** What one more option costs, whatever came before: its own value and gas, and one base cost if it
      composes at an index for the first time. */
  lemma OptionAdds(options: seq<LzOption>, o: LzOption, c: DstConfig)
    requires MeaningOf(o).Ok?
    ensures Sum(Value, options + [o]) - Sum(Value, options) ==
            match MeaningOf(o).value
            case Receive(_, value) => value
            case NativeDrop(amount) => amount
            case Compose(_, _, value) => value
            case Ordered => 0
    ensures PlainGas(options + [o], c) - PlainGas(options, c) ==
            match MeaningOf(o).value
            case Receive(gas, _) => gas
            case NativeDrop(_) => 0
            case Compose(index, gas, _) => gas + (if index in Indices(options) then 0 else c.lzComposeBaseGas)
            case Ordered => 0
    ensures IsOrdered(options + [o]) <==> IsOrdered(options) || MeaningOf(o).value.Ordered?
  {
    SumAppend(Value, options, o);
    SumAppend(ReceiveGas, options, o);
    SumAppend(ComposeGas, options, o);
    IndicesAppend(options, o);
    hide Sum, Indices, MeaningOf;
    if MeaningOf(o).value.Compose? {
      var index := MeaningOf(o).value.index;
      Distributes(c.lzComposeBaseGas, |Indices(options)|, 1);
      if index in Indices(options) {
        assert Indices(options) + {index} == Indices(options);
      }
    } else {
      assert Indices(options) + {} == Indices(options);
    }
  }

  /** Without options the gas is the base cost of a receipt and nothing is dropped; ordered execution takes two
      percent more, rounded down. */
  lemma CostsNothingElse(options: seq<LzOption>, c: DstConfig)
    ensures PlainGas([], c) == c.lzReceiveBaseGas && Sum(Value, []) == 0 && !IsOrdered([])
    ensures Closed(options, c).0 == Sum(Value, options)
    ensures !IsOrdered(options) ==> Closed(options, c).1 == PlainGas(options, c)
    ensures IsOrdered(options) ==> 0 <= PlainGas(options, c) * 102 - Closed(options, c).1 * 100 < 100
  {
    assert Indices([]) == {};
    assert Times(c.lzComposeBaseGas, 0) == 0;
    hide Sum, Indices, MeaningOf, PlainGas, IsOrdered;
  }

  /** Success and result depend only on which options there are, not on their order. */
  lemma OrderFree(one: seq<LzOption>, two: seq<LzOption>, c: DstConfig)
    requires multiset(one) == multiset(two)
    ensures Acceptable(one, c) <==> Acceptable(two, c)
    ensures Closed(one, c) == Closed(two, c)
  {
    SameMembers(one, two);
    assert Indices(one) == Indices(two);
    hide Sum, MeaningOf, Indices;
    forall w: Weight ensures Sum(w, one) == Sum(w, two) {
      SumOfPermutation(w, one, two);
    }
    assert PlainGas(one, c) == PlainGas(two, c);
    assert IsOrdered(one) == IsOrdered(two);
  }

  lemma SameMembers(one: seq<LzOption>, two: seq<LzOption>)
    requires multiset(one) == multiset(two)
    ensures forall o :: o in one <==> o in two
  {
    forall o ensures o in one <==> o in two {
      assert o in one <==> o in multiset(one);
      assert o in two <==> o in multiset(two);
    }
  }

  // ---------- distinct indices ----------

  ghost predicate Distinct(s: seq<u16>) {
    forall i, j | 0 <= i < j < |s| :: s[i] != s[j]
  }

  lemma {:induction false} DistinctLength(s: seq<u16>, t: set<u16>)
    requires Distinct(s) && forall i :: i in s <==> i in t
    ensures |s| == |t|
  {
    if s == [] {
      assert t == {};
    } else {
      var front, last := s[..|s| - 1], s[|s| - 1];
      assert s == front + [last];
      DistinctLength(front, t - {last});
    }
  }

  /** The gas collected under the indices of a list. */
  function GasUnder(indices: seq<u16>, options: seq<LzOption>): nat {
    if indices == [] then 0
    else GasUnder(indices[..|indices| - 1], options) + Sum(ComposeGasAt(indices[|indices| - 1]), options)
  }

  lemma {:induction false} GasUnderAppend(indices: seq<u16>, options: seq<LzOption>, o: LzOption)
    requires Distinct(indices)
    ensures GasUnder(indices, options + [o])
            == GasUnder(indices, options)
               + if exists i | i in indices :: ComposesAt(o, i) then WeightOf(ComposeGas, o) else 0
  {
    if indices != [] {
      var front, last := indices[..|indices| - 1], indices[|indices| - 1];
      assert indices == front + [last];
      GasUnderAppend(front, options, o);
      SumAppend(ComposeGasAt(last), options, o);
      assert ComposesAt(o, last) ==> forall i | i in front :: !ComposesAt(o, i);
    }
  }

  /** Adding the gas index by index is adding it option by option. */
  lemma {:induction false} GasByIndex(indices: seq<u16>, options: seq<LzOption>)
    requires Distinct(indices) && Indices(options) <= set i | i in indices
    ensures GasUnder(indices, options) == Sum(ComposeGas, options)
  {
    if options == [] {
      NoGas(indices);
    } else {
      var front, last := options[..|options| - 1], options[|options| - 1];
      assert options == front + [last];
      IndicesAppend(front, last);
      hide Indices;
      GasByIndex(indices, front);
      GasUnderAppend(indices, front, last);
      SumAppend(ComposeGas, front, last);
      if MeaningOf(last).Ok? && MeaningOf(last).value.Compose? {
        assert ComposesAt(last, MeaningOf(last).value.index) && MeaningOf(last).value.index in Indices(options);
      }
    }
  }

  lemma {:induction false} NoGas(indices: seq<u16>)
    ensures GasUnder(indices, []) == 0
  {
    if indices != [] {
      NoGas(indices[..|indices| - 1]);
    }
  }

  // ---------- the program's two loops ----------

  /** What the first loop has collected from the options behind it. */
  ghost predicate Collected(done: seq<LzOption>, dstAmount: int, receiveGas: int, ordered: bool,
                            unique: seq<u16>, composeGas: map<u16, u128>)
  {
    && Readable(done)
    && dstAmount == Sum(Value, done) && receiveGas == Sum(ReceiveGas, done) && ordered == IsOrdered(done)
    && Distinct(unique)
    && (forall i :: i in unique <==> i in Indices(done))
    && (forall i :: i in composeGas <==> i in Indices(done))
    && (forall i | i in composeGas :: composeGas[i] == Sum(ComposeGasAt(i), done))
  }

  lemma NothingCollected()
    ensures Collected([], 0, 0, false, [], map[])
  {
  }

  lemma AppendMembers(done: seq<LzOption>, o: LzOption)
    ensures Readable(done + [o]) <==> Readable(done) && MeaningOf(o).Ok?
    ensures IsOrdered(done + [o]) <==> IsOrdered(done) || MeaningOf(o) == Ok(Ordered)
  {
  }

  /** How one option changes what is collected. */
  lemma CollectPlain(done: seq<LzOption>, dstAmount: int, receiveGas: int, ordered: bool,
                     unique: seq<u16>, composeGas: map<u16, u128>, o: LzOption)
    requires Collected(done, dstAmount, receiveGas, ordered, unique, composeGas)
    requires MeaningOf(o).Ok? && !MeaningOf(o).value.Compose?
    ensures dstAmount + WeightOf(Value, o) == Sum(Value, done + [o])
    ensures receiveGas + WeightOf(ReceiveGas, o) == Sum(ReceiveGas, done + [o])
    ensures Collected(done + [o], dstAmount + WeightOf(Value, o), receiveGas + WeightOf(ReceiveGas, o),
                      ordered || MeaningOf(o).value.Ordered?, unique, composeGas)
  {
    hide Sum, Indices, Readable, IsOrdered, MeaningOf;
    AppendMembers(done, o);
    IndicesAppend(done, o);
    SumAppend(Value, done, o);
    SumAppend(ReceiveGas, done, o);
    forall i: u16 ensures Sum(ComposeGasAt(i), done + [o]) == Sum(ComposeGasAt(i), done) {
      SumAppend(ComposeGasAt(i), done, o);
    }
    hide WeightOf;
    assert Indices(done + [o]) == Indices(done);
  }

  lemma CollectCompose(done: seq<LzOption>, dstAmount: int, receiveGas: int, ordered: bool,
                       unique: seq<u16>, composeGas: map<u16, u128>, o: LzOption)
    requires Collected(done, dstAmount, receiveGas, ordered, unique, composeGas)
    requires MeaningOf(o).Ok? && MeaningOf(o).value.Compose?
    ensures var m := MeaningOf(o).value;
            var before := if m.index in composeGas then composeGas[m.index] else 0;
            && dstAmount + m.value == Sum(Value, done + [o])
            && before + m.gas == Sum(ComposeGasAt(m.index), done + [o])
            && (before + m.gas <= U128_MAX ==>
                  Collected(done + [o], dstAmount + m.value, receiveGas, ordered,
                            if m.index in composeGas then unique else unique + [m.index], composeGas[m.index := before + m.gas]))
  {
    hide Sum, Indices, Readable, IsOrdered, MeaningOf;
    var m := MeaningOf(o).value;
    AppendMembers(done, o);
    IndicesAppend(done, o);
    SumAppend(Value, done, o);
    SumAppend(ReceiveGas, done, o);
    forall i: u16 ensures Sum(ComposeGasAt(i), done + [o]) == Sum(ComposeGasAt(i), done) + if i == m.index then m.gas else 0 {
      SumAppend(ComposeGasAt(i), done, o);
    }
    assert WeightOf(Value, o) == m.value && WeightOf(ReceiveGas, o) == 0;
    hide WeightOf;
    NotComposedIsZero(done, m.index);
    var unique' := if m.index in composeGas then unique else unique + [m.index];
    assert Distinct(unique') && forall i :: i in unique' <==> i in unique || i == m.index;
  }

  lemma {:induction false} NotComposedIsZero(options: seq<LzOption>, i: u16)
    ensures i !in Indices(options) ==> Sum(ComposeGasAt(i), options) == 0
  {
    hide Indices, MeaningOf;
    if options != [] {
      var front, last := options[..|options| - 1], options[|options| - 1];
      assert options == front + [last];
      IndicesAppend(front, last);
      NotComposedIsZero(front, i);
    }
  }

  /** Running totals only grow, so an overflow on the way means that the closed form overflows. */
  lemma PrefixBound(options: seq<LzOption>, k: nat, w: Weight)
    requires k <= |options|
    ensures Sum(w, options[..k]) <= Sum(w, options)
  {
    SumConcat(w, options[..k], options[k..]);
    assert options == options[..k] + options[k..];
  }

  lemma {:induction false} OneIndexBound(options: seq<LzOption>, i: u16)
    ensures Sum(ComposeGasAt(i), options) <= Sum(ComposeGas, options)
  {
    if options != [] {
      OneIndexBound(options[..|options| - 1], i);
    }
  }

  lemma OverflowIsFault(options: seq<LzOption>, c: DstConfig, k: nat, i: u16)
    requires k < |options|
    requires Sum(Value, options[..k + 1]) > U128_MAX || Sum(ReceiveGas, options[..k + 1]) > U128_MAX
             || Sum(ComposeGasAt(i), options[..k + 1]) > U128_MAX
    ensures Fault(options, c, Abort)
  {
    hide Sum, Indices, MeaningOf, IsOrdered, Scaled;
    PrefixBound(options, k + 1, Value);
    PrefixBound(options, k + 1, ReceiveGas);
    PrefixBound(options, k + 1, ComposeGasAt(i));
    OneIndexBound(options, i);
    if Sum(Value, options) <= U128_MAX {
      assert PlainGas(options, c) > U128_MAX;
    }
  }

  lemma UnreadableIsFault(options: seq<LzOption>, c: DstConfig, k: nat)
    requires k < |options| && MeaningOf(options[k]).Err?
    ensures Fault(options, c, MeaningOf(options[k]).error)
  {
    assert options[k] in options;
  }

  /** What the second loop has added up after `j` indices. */
  ghost function GasAfter(options: seq<LzOption>, c: DstConfig, unique: seq<u16>, j: nat): nat
    requires j <= |unique|
  {
    c.lzReceiveBaseGas + Sum(ReceiveGas, options) + Times(c.lzComposeBaseGas, j) + GasUnder(unique[..j], options)
  }

  lemma GasAfterStep(options: seq<LzOption>, c: DstConfig, unique: seq<u16>, j: nat)
    requires j < |unique|
    ensures GasAfter(options, c, unique, j + 1)
            == GasAfter(options, c, unique, j) + c.lzComposeBaseGas + Sum(ComposeGasAt(unique[j]), options)
  {
    assert unique[..j + 1][..j] == unique[..j];
  }

  lemma {:induction false} GasAfterGrows(options: seq<LzOption>, c: DstConfig, unique: seq<u16>, j: nat)
    requires j <= |unique|
    ensures GasAfter(options, c, unique, j) <= GasAfter(options, c, unique, |unique|)
    decreases |unique| - j
  {
    if j < |unique| {
      hide GasAfter;
      GasAfterStep(options, c, unique, j);
      GasAfterGrows(options, c, unique, j + 1);
    }
  }

  lemma GasAfterAll(options: seq<LzOption>, c: DstConfig, unique: seq<u16>)
    requires Distinct(unique) && forall i :: i in unique <==> i in Indices(options)
    ensures GasAfter(options, c, unique, |unique|) == PlainGas(options, c)
    ensures GasAfter(options, c, unique, 0) == c.lzReceiveBaseGas + Sum(ReceiveGas, options)
  {
    assert unique[..|unique|] == unique && unique[..0] == [];
    DistinctLength(unique, Indices(options));
    hide Indices;
    GasByIndex(unique, options);
  }

  /** What the first loop hands to the second. */
  lemma CollectedAll(options: seq<LzOption>, dstAmount: int, receiveGas: int, ordered: bool,
                     unique: seq<u16>, composeGas: map<u16, u128>)
    requires Collected(options, dstAmount, receiveGas, ordered, unique, composeGas)
    ensures Readable(options) && dstAmount == Sum(Value, options) && receiveGas == Sum(ReceiveGas, options)
    ensures ordered == IsOrdered(options) && Distinct(unique) && forall i :: i in unique <==> i in Indices(options)
    ensures forall j | 0 <= j < |unique| ::
              unique[j] in composeGas && composeGas[unique[j]] == Sum(ComposeGasAt(unique[j]), options)
  {
  }

  /** The second loop, and the uplift. */
  lemma GasOverflowIsFault(options: seq<LzOption>, c: DstConfig, unique: seq<u16>, j: nat)
    requires Distinct(unique) && (forall i :: i in unique <==> i in Indices(options)) && j <= |unique|
    requires GasAfter(options, c, unique, j) > U128_MAX
    ensures Fault(options, c, Abort) && !Acceptable(options, c)
  {
    GasAfterGrows(options, c, unique, j);
    GasAfterAll(options, c, unique);
    FaultRefuses(options, c, Abort);
    hide Sum, Indices, MeaningOf, GasAfter, PlainGas, Readable, IsOrdered, Scaled, Acceptable;
  }

  lemma NoComposeGasIsFault(options: seq<LzOption>, c: DstConfig, i: u16)
    requires Readable(options) && i in Indices(options) && Sum(ComposeGasAt(i), options) == 0
    ensures Fault(options, c, ZeroLzComposeGasProvided) && !Acceptable(options, c)
  {
    FaultRefuses(options, c, ZeroLzComposeGasProvided);
    hide Sum, Indices, MeaningOf, PlainGas, Readable, IsOrdered, Scaled, Acceptable;
  }

  lemma Finishes(options: seq<LzOption>, c: DstConfig, unique: seq<u16>)
    requires c.lzReceiveBaseGas > 0 && Readable(options)
    requires Sum(Value, options) <= c.nativeDropCap && Sum(ReceiveGas, options) > 0
    requires Distinct(unique) && (forall i :: i in unique <==> i in Indices(options))
    requires forall k | 0 <= k < |unique| :: Sum(ComposeGasAt(unique[k]), options) > 0
    ensures GasAfter(options, c, unique, |unique|) == PlainGas(options, c)
    ensures if Scaled(IsOrdered(options), PlainGas(options, c)) <= U128_MAX then Acceptable(options, c)
            else Fault(options, c, Abort) && !Acceptable(options, c)
  {
    GasAfterAll(options, c, unique);
    hide Sum, Indices, MeaningOf, GasAfter, PlainGas, Readable, IsOrdered, Scaled;
  }

  method AggregateOptions(options: seq<LzOption>, c: DstConfig) returns (r: Result<Totals>)
    ensures r.Ok? ==> Acceptable(options, c) && (r.value.dstAmount as int, r.value.gas as int) == Closed(options, c)
    ensures r.Err? ==> !Acceptable(options, c) && Fault(options, c, r.error)
  {
    hide Fault, Collected, Sum, Indices, MeaningOf, GasAfter, PlainGas, Readable, IsOrdered, Acceptable, Distinct;
    if c.lzReceiveBaseGas == 0 {
      NoBaseGasIsFault(options, c);
      return Err(EidNotSupported);
    }
    var totalDstAmount: u128, totalLzReceiveGas: u128, ordered := 0, 0, false;
    var uniqueLzComposeIdx: seq<u16>, totalLzComposeGas: map<u16, u128> := [], map[];
    var i := 0;
    NothingCollected();
    assert options[..0] == [];
    while i < |options|
      invariant 0 <= i <= |options|
      invariant Collected(options[..i], totalDstAmount, totalLzReceiveGas, ordered, uniqueLzComposeIdx, totalLzComposeGas)
    {
      var option := options[i];
      var meaning := MeaningOf(option);
      ghost var index: u16 := if meaning.Ok? && meaning.value.Compose? then meaning.value.index else 0;
      assert options[..i + 1] == options[..i] + [option];
      if meaning.Err? {
        UnreadableIsFault(options, c, i);
        FaultRefuses(options, c, meaning.error);
        return Err(meaning.error);
      }
      if meaning.value.Compose? {
        CollectCompose(options[..i], totalDstAmount, totalLzReceiveGas, ordered, uniqueLzComposeIdx, totalLzComposeGas, option);
      } else {
        CollectPlain(options[..i], totalDstAmount, totalLzReceiveGas, ordered, uniqueLzComposeIdx, totalLzComposeGas, option);
      }
      match meaning.value {
        case Receive(gas, value) =>
          if totalDstAmount + value > U128_MAX || totalLzReceiveGas + gas > U128_MAX {
            OverflowIsFault(options, c, i, index);
            FaultRefuses(options, c, Abort);
            return Err(Abort);
          }
          totalDstAmount := totalDstAmount + value;
          totalLzReceiveGas := totalLzReceiveGas + gas;
        case NativeDrop(amount) =>
          if totalDstAmount + amount > U128_MAX {
            OverflowIsFault(options, c, i, index);
            FaultRefuses(options, c, Abort);
            return Err(Abort);
          }
          totalDstAmount := totalDstAmount + amount;
        case Compose(idx, gas, value) =>
          if totalDstAmount + value > U128_MAX {
            OverflowIsFault(options, c, i, index);
            FaultRefuses(options, c, Abort);
            return Err(Abort);
          }
          totalDstAmount := totalDstAmount + value;
          if idx in totalLzComposeGas {
            if totalLzComposeGas[idx] + gas > U128_MAX {
              OverflowIsFault(options, c, i, index);
              FaultRefuses(options, c, Abort);
              return Err(Abort);
            }
            totalLzComposeGas := totalLzComposeGas[idx := totalLzComposeGas[idx] + gas];
          } else {
            totalLzComposeGas := totalLzComposeGas[idx := gas];
            uniqueLzComposeIdx := uniqueLzComposeIdx + [idx];
          }
        case Ordered =>
          ordered := true;
      }
      i := i + 1;
    }
    assert options[..i] == options;
    CollectedAll(options, totalDstAmount, totalLzReceiveGas, ordered, uniqueLzComposeIdx, totalLzComposeGas);
    if totalDstAmount > c.nativeDropCap {
      OverCapIsFault(options, c);
      return Err(NativeAmountExceedsCap);
    }
    if totalLzReceiveGas == 0 {
      NoReceiveGasIsFault(options, c);
      return Err(ZeroLzReceiveGasProvided);
    }
    GasAfterAll(options, c, uniqueLzComposeIdx);
    if c.lzReceiveBaseGas + totalLzReceiveGas > U128_MAX {
      GasOverflowIsFault(options, c, uniqueLzComposeIdx, 0);
      return Err(Abort);
    }
    var totalGas: u128 := c.lzReceiveBaseGas + totalLzReceiveGas;
    var j := 0;
    while j < |uniqueLzComposeIdx|
      invariant 0 <= j <= |uniqueLzComposeIdx|
      invariant totalGas == GasAfter(options, c, uniqueLzComposeIdx, j)
      invariant forall k | 0 <= k < j :: Sum(ComposeGasAt(uniqueLzComposeIdx[k]), options) > 0
    {
      var lzComposeGas := totalLzComposeGas[uniqueLzComposeIdx[j]];
      if lzComposeGas == 0 {
        NoComposeGasIsFault(options, c, uniqueLzComposeIdx[j]);
        return Err(ZeroLzComposeGasProvided);
      }
      GasAfterStep(options, c, uniqueLzComposeIdx, j);
      if totalGas + c.lzComposeBaseGas + lzComposeGas > U128_MAX {
        GasOverflowIsFault(options, c, uniqueLzComposeIdx, j + 1);
        return Err(Abort);
      }
      totalGas := totalGas + c.lzComposeBaseGas + lzComposeGas;
      j := j + 1;
    }
    Finishes(options, c, uniqueLzComposeIdx);
    if ordered {
      if totalGas * 102 > U128_MAX {
        return Err(Abort);
      }
      totalGas := totalGas * 102 / 100;
    }
    return Ok(Totals(totalDstAmount, totalGas));
  }

  lemma NoBaseGasIsFault(options: seq<LzOption>, c: DstConfig)
    requires c.lzReceiveBaseGas == 0
    ensures Fault(options, c, EidNotSupported) && !Acceptable(options, c)
  {
  }

  lemma OverCapIsFault(options: seq<LzOption>, c: DstConfig)
    requires Readable(options) && Sum(Value, options) > c.nativeDropCap
    ensures Fault(options, c, NativeAmountExceedsCap) && !Acceptable(options, c)
  {
  }

  lemma NoReceiveGasIsFault(options: seq<LzOption>, c: DstConfig)
    requires Readable(options) && Sum(Value, options) <= c.nativeDropCap && Sum(ReceiveGas, options) == 0
    ensures Fault(options, c, ZeroLzReceiveGasProvided) && !Acceptable(options, c)
  {
  }
}
