/** The EVM executor's aggregation of the same options, straight from the bytes, and how it differs: it
    charges the compose base cost for every compose option, not for every distinct index. */
module EvmExecutorFee {
  import opened Arithmetic
  import opened Common
  import opened Bytes
  import opened Options
  import opened ExecutorQuote

  // ---------- reading the bytes ----------

  /** The next option; the worker id in front of it is skipped, not checked. */
  function NextOption(b: seq<byte>): (r: Result<(LzOption, nat)>)
    requires b != []
    ensures r.Ok? ==> 4 <= r.value.1 <= |b|
  {
    var _ :- Require(4 <= |b|, Abort);
    var size := U16At(b, 1);
    var _ :- Require(1 <= size && 3 + size <= |b|, Abort);
    Ok((LzOption(b[3], b[4..3 + size]), 3 + size))
  }

  function ReadOptions(b: seq<byte>): Result<seq<LzOption>> {
    if b == [] then Ok([])
    else
      var first :- NextOption(b);
      var rest :- ReadOptions(b[first.1..]);
      Ok([first.0] + rest)
  }

  // ---------- the closed form ----------

  datatype Aggregate = Aggregate(totalValue: nat, totalGas: nat, ordered: bool, numLzCompose: nat)

  /** Version-1 endpoints take no value on receipt and no compose options; every compose option must pay. */
  predicate Permitted(o: LzOption, v1Eid: bool) {
    var m := MeaningOf(o);
    && m.Ok?
    && (m.value.Receive? && v1Eid ==> m.value.value == 0)
    && (m.value.Compose? ==> !v1Eid && m.value.gas > 0)
  }

  predicate EvmAccepts(options: seq<LzOption>, v1Eid: bool, nativeCap: u128) {
    && (forall o | o in options :: Permitted(o, v1Eid))
    && Sum(Value, options) <= nativeCap
    && Sum(ReceiveGas, options) > 0
  }

  function AggregateOf(options: seq<LzOption>): Aggregate {
    Aggregate(Sum(Value, options), Sum(ComposeGas, options) + Sum(ReceiveGas, options),
              IsOrdered(options), Sum(ComposeCount, options))
  }

  /** Gas before the uplift. */
  function EvmPlainGas(options: seq<LzOption>, c: DstConfig): nat {
    c.lzReceiveBaseGas + AggregateOf(options).totalGas + Times(c.lzComposeBaseGas, AggregateOf(options).numLzCompose)
  }

  // ---------- the loop ----------

  /** Reading `whole` is reading `b` behind the options `done`. */
  ghost predicate ReadBehind(whole: seq<byte>, done: seq<LzOption>, b: seq<byte>) {
    match ReadOptions(b)
    case Ok(rest) => ReadOptions(whole) == Ok(done + rest)
    case Err(e) => ReadOptions(whole) == Err(e)
  }

  lemma ReadStarts(whole: seq<byte>)
    ensures ReadBehind(whole, [], whole)
  {
    assert ReadOptions(whole).Ok? ==> [] + ReadOptions(whole).value == ReadOptions(whole).value;
  }

  lemma ReadSteps(whole: seq<byte>, done: seq<LzOption>, b: seq<byte>)
    requires b != [] && ReadBehind(whole, done, b)
    ensures NextOption(b).Err? ==> ReadOptions(whole).Err?
    ensures NextOption(b).Ok? ==> ReadBehind(whole, done + [NextOption(b).value.0], b[NextOption(b).value.1..])
  {
    hide NextOption;
    if NextOption(b).Ok? {
      var (o, size) := NextOption(b).value;
      if ReadOptions(b[size..]).Ok? {
        var rest := ReadOptions(b[size..]).value;
        assert done + [o] + rest == done + ([o] + rest);
      }
    }
  }

  lemma ReadStops(whole: seq<byte>, done: seq<LzOption>)
    requires ReadBehind(whole, done, [])
    ensures ReadOptions(whole) == Ok(done)
  {
    assert done + [] == done;
  }

  /** An option that is not permitted spoils every string it is read from. */
  lemma NotPermitted(whole: seq<byte>, done: seq<LzOption>, b: seq<byte>, o: LzOption, v1Eid: bool)
    requires ReadBehind(whole, done + [o], b) && !Permitted(o, v1Eid)
    ensures ReadOptions(whole).Ok? ==> exists p | p in ReadOptions(whole).value :: !Permitted(p, v1Eid)
  {
  }

  /** What the loop has added up. */
  ghost predicate Added(done: seq<LzOption>, v1Eid: bool, totalValue: nat, composeGas: nat, receiveGas: nat,
                        ordered: bool, num: nat) {
    && (forall o | o in done :: Permitted(o, v1Eid))
    && totalValue == Sum(Value, done) && composeGas == Sum(ComposeGas, done) && receiveGas == Sum(ReceiveGas, done)
    && ordered == IsOrdered(done) && num == Sum(ComposeCount, done)
  }

  lemma AddOne(done: seq<LzOption>, v1Eid: bool, totalValue: nat, composeGas: nat, receiveGas: nat, ordered: bool,
               num: nat, o: LzOption)
    requires Added(done, v1Eid, totalValue, composeGas, receiveGas, ordered, num) && Permitted(o, v1Eid)
    ensures Added(done + [o], v1Eid, totalValue + WeightOf(Value, o), composeGas + WeightOf(ComposeGas, o),
                  receiveGas + WeightOf(ReceiveGas, o), ordered || MeaningOf(o) == Ok(Ordered), num + WeightOf(ComposeCount, o))
  {
    hide Sum, WeightOf, MeaningOf, IsOrdered, Permitted;
    AppendMembers(done, o);
    SumAppend(Value, done, o);
    SumAppend(ComposeGas, done, o);
    SumAppend(ReceiveGas, done, o);
    SumAppend(ComposeCount, done, o);
  }

  /** Totals are 256-bit numbers, out of reach of any calldata; they are not bounded here. */
  method ParseExecutorOptions(options: seq<byte>, v1Eid: bool, nativeCap: u128) returns (r: Result<Aggregate>)
    ensures r.Ok? <==> ReadOptions(options).Ok? && EvmAccepts(ReadOptions(options).value, v1Eid, nativeCap)
    ensures r.Ok? ==> r.value == AggregateOf(ReadOptions(options).value)
  {
    hide ReadOptions, ReadBehind, Added, MeaningOf, NextOption, Sum, IsOrdered;
    if |options| == 0 {
      NothingToRead(v1Eid, nativeCap);
      return Err(NoOptions);
    }
    var totalValue, composeGas, lzReceiveGas, ordered, numLzCompose := 0, 0, 0, false, 0;
    var cursor := 0;
    ghost var done: seq<LzOption> := [];
    ReadStarts(options);
    NothingAdded(v1Eid);
    assert options[0..] == options;
    while cursor < |options|
      invariant 0 <= cursor <= |options|
      invariant ReadBehind(options, done, options[cursor..])
      invariant Added(done, v1Eid, totalValue, composeGas, lzReceiveGas, ordered, numLzCompose)
      decreases |options| - cursor
    {
      var next := NextOption(options[cursor..]);
      ReadSteps(options, done, options[cursor..]);
      if next.Err? {
        return Err(next.error);
      }
      var (option, size) := next.value;
      assert options[cursor..][size..] == options[cursor + size..];
      cursor := cursor + size;
      var meaning := MeaningOf(option);
      if !Permitted(option, v1Eid) {
        NotPermitted(options, done, options[cursor..], option, v1Eid);
        return Err(if meaning.Err? then meaning.error else if v1Eid then UnsupportedOptionType else ZeroLzComposeGasProvided);
      }
      AddOne(done, v1Eid, totalValue, composeGas, lzReceiveGas, ordered, numLzCompose, option);
      match meaning.value {
        case Receive(gas, value) =>
          totalValue := totalValue + value;
          lzReceiveGas := lzReceiveGas + gas;
        case NativeDrop(amount) =>
          totalValue := totalValue + amount;
        case Compose(_, gas, value) =>
          totalValue := totalValue + value;
          composeGas := composeGas + gas;
          numLzCompose := numLzCompose + 1;
        case Ordered =>
          ordered := true;
      }
      done := done + [option];
    }
    assert options[cursor..] == [];
    ReadStops(options, done);
    AddedAll(done, v1Eid, totalValue, composeGas, lzReceiveGas, ordered, numLzCompose);
    if totalValue > nativeCap {
      return Err(NativeAmountExceedsCap);
    }
    if lzReceiveGas == 0 {
      return Err(ZeroLzReceiveGasProvided);
    }
    return Ok(Aggregate(totalValue, composeGas + lzReceiveGas, ordered, numLzCompose));
  }

  lemma NothingToRead(v1Eid: bool, nativeCap: u128)
    ensures ReadOptions([]) == Ok([]) && !EvmAccepts([], v1Eid, nativeCap)
  {
  }

  lemma NothingAdded(v1Eid: bool)
    ensures Added([], v1Eid, 0, 0, 0, false, 0)
  {
  }

  lemma AddedAll(done: seq<LzOption>, v1Eid: bool, totalValue: nat, composeGas: nat, receiveGas: nat, ordered: bool,
                 num: nat)
    requires Added(done, v1Eid, totalValue, composeGas, receiveGas, ordered, num)
    ensures AggregateOf(done) == Aggregate(totalValue, composeGas + receiveGas, ordered, num)
    ensures receiveGas == Sum(ReceiveGas, done) && forall o | o in done :: Permitted(o, v1Eid)
  {
  }

  // ---------- the two chains compared ----------

  /** On entries for the executor both chains read the same options. */
  lemma {:induction false} BothReadTheSame(b: seq<byte>)
    requires ParseEntries(b).Ok? && forall e | e in ParseEntries(b).value :: e.Executor?
    ensures ReadOptions(b) == Ok(OptionsOf(ParseEntries(b).value))
  {
    if b != [] {
      var (entry, size) := FirstEntry(b).value;
      ParseStep(b, entry, size);
      var rest := ParseEntries(b[size..]).value;
      assert ([entry] + rest)[0] == entry && ([entry] + rest)[1..] == rest;
      assert entry in ParseEntries(b).value;
      assert NextOption(b) == Ok((entry.option, size));
      hide FirstEntry, NextOption, ParseEntries;
      BothReadTheSame(b[size..]);
    }
  }

  function OptionsOf(entries: seq<Entry>): seq<LzOption> {
    if entries == [] then [] else [entries[0].option] + OptionsOf(entries[1..])
  }

  lemma AddingOne(s: set<u16>, t: set<u16>)
    requires |t| <= 1
    ensures |s + t| <= |s| + 1
  {
  }

  lemma {:induction false} IndicesAreFewer(options: seq<LzOption>)
    ensures |Indices(options)| <= Sum(ComposeCount, options)
  {
    hide Indices, MeaningOf;
    if options == [] {
      NoIndices();
    } else {
      var front, last := options[..|options| - 1], options[|options| - 1];
      assert options == front + [last];
      IndicesAppend(front, last);
      IndicesAreFewer(front);
      if MeaningOf(last).Ok? && MeaningOf(last).value.Compose? {
        AddingOne(Indices(front), {MeaningOf(last).value.index});
      }
    }
  }

  lemma NoIndices()
    ensures Indices([]) == {}
  {
  }

  /** With the same base costs the EVM charges more gas, before the uplift, by exactly one compose base
      cost for every compose option that repeats an index. */
  lemma EvmChargesRepeats(options: seq<LzOption>, c: DstConfig)
    ensures |Indices(options)| <= Sum(ComposeCount, options)
    ensures EvmPlainGas(options, c)
            == PlainGas(options, c) + c.lzComposeBaseGas * (Sum(ComposeCount, options) - |Indices(options)|)
  {
    IndicesAreFewer(options);
    hide Indices, Sum;
    var n, k := Sum(ComposeCount, options), |Indices(options)|;
    assert c.lzComposeBaseGas * n == c.lzComposeBaseGas * k + c.lzComposeBaseGas * (n - k);
  }

  lemma {:induction false} MemberBound(w: Weight, options: seq<LzOption>, o: LzOption)
    requires o in options
    ensures WeightOf(w, o) <= Sum(w, options)
  {
    var front, last := options[..|options| - 1], options[|options| - 1];
    assert options == front + [last];
    if o in front {
      MemberBound(w, front, o);
    }
  }

  predicate EveryComposePays(options: seq<LzOption>) {
    forall o | o in options && MeaningOf(o).Ok? && MeaningOf(o).value.Compose? :: MeaningOf(o).value.gas > 0
  }

  /** The chains accept the same options to a version-2 endpoint, up to two differences: the EVM wants gas
      in every compose option, not just in every index, and Solana's totals are cut off at 128 bits. */
  lemma AcceptanceCompared(options: seq<LzOption>, c: DstConfig)
    requires c.lzReceiveBaseGas > 0
    ensures Acceptable(options, c) && EveryComposePays(options) <==>
            EvmAccepts(options, false, c.nativeDropCap)
            && Scaled(IsOrdered(options), PlainGas(options, c)) <= U128_MAX
  {
    hide MeaningOf, Sum, PlainGas, IsOrdered;
    if EveryComposePays(options) {
      forall i | i in Indices(options) ensures Sum(ComposeGasAt(i), options) > 0 {
        var o :| o in options && MeaningOf(o).Ok? && MeaningOf(o).value.Compose? && MeaningOf(o).value.index == i;
        MemberBound(ComposeGasAt(i), options, o);
      }
    }
  }

  /** What one more option costs on the EVM: its own value and gas, and one base cost whenever it composes. */
  lemma EvmOptionAdds(options: seq<LzOption>, o: LzOption, c: DstConfig)
    requires MeaningOf(o).Ok?
    ensures AggregateOf(options + [o]).totalValue - AggregateOf(options).totalValue ==
            match MeaningOf(o).value
            case Receive(_, value) => value
            case NativeDrop(amount) => amount
            case Compose(_, _, value) => value
            case Ordered => 0
    ensures EvmPlainGas(options + [o], c) - EvmPlainGas(options, c) ==
            match MeaningOf(o).value
            case Receive(gas, _) => gas
            case NativeDrop(_) => 0
            case Compose(_, gas, _) => gas + c.lzComposeBaseGas
            case Ordered => 0
  {
    SumAppend(Value, options, o);
    SumAppend(ReceiveGas, options, o);
    SumAppend(ComposeGas, options, o);
    SumAppend(ComposeCount, options, o);
    hide Sum, MeaningOf, IsOrdered;
    Distributes(c.lzComposeBaseGas, Sum(ComposeCount, options), 1);
  }

  /** A version-1 endpoint accepts what a version-2 endpoint does, without compose options and without a value on
      receipt; both want some gas on receipt, gas in every compose option, and no more value than the cap. */
  lemma EvmAcceptsExactly(options: seq<LzOption>, nativeCap: u128)
    ensures EvmAccepts(options, false, nativeCap) <==>
            && (forall o | o in options :: MeaningOf(o).Ok?) && EveryComposePays(options)
            && Sum(Value, options) <= nativeCap && Sum(ReceiveGas, options) > 0
    ensures EvmAccepts(options, true, nativeCap) <==>
            && EvmAccepts(options, false, nativeCap)
            && forall o | o in options && MeaningOf(o).Ok? ::
                 !MeaningOf(o).value.Compose? && (MeaningOf(o).value.Receive? ==> MeaningOf(o).value.value == 0)
  {
    hide Sum, MeaningOf;
  }

  /** The order of the options does not matter on the EVM either. */
  lemma EvmOrderFree(one: seq<LzOption>, two: seq<LzOption>, v1Eid: bool, c: DstConfig)
    requires multiset(one) == multiset(two)
    ensures EvmAccepts(one, v1Eid, c.nativeDropCap) <==> EvmAccepts(two, v1Eid, c.nativeDropCap)
    ensures AggregateOf(one) == AggregateOf(two) && EvmPlainGas(one, c) == EvmPlainGas(two, c)
  {
    SameMembers(one, two);
    hide Sum, MeaningOf;
    forall w: Weight ensures Sum(w, one) == Sum(w, two) {
      SumOfPermutation(w, one, two);
    }
  }
}
