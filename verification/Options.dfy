/** Worker options as bytes: a two-byte format type, then for type 3 one entry per option (worker id,
    size, the option).  The parser, the encoders that the SDKs use, and the combination of an OApp's enforced
    options with a caller's. */
module Options {
  import opened Common
  import opened Bytes
  import opened PacketCodec

  const TYPE_1: u16 := 1
  const TYPE_2: u16 := 2
  const TYPE_3: u16 := 3

  const EXECUTOR_WORKER_ID: byte := 1
  const DVN_WORKER_ID: byte := 2

  const OPTION_TYPE_LZRECEIVE: byte := 1
  const OPTION_TYPE_NATIVE_DROP: byte := 2

  const DVN_OPTION_TYPE_PRECRIME: byte := 1

  datatype LzOption = LzOption(optionType: byte, params: seq<byte>)

  /** One entry of a type-3 string. */
  datatype Entry = Executor(option: LzOption) | Dvn(idx: byte, option: LzOption)

  datatype Decoded = Decoded(executor: seq<LzOption>, dvn: map<byte, seq<LzOption>>)

  // ---------- the parser, as a function ----------

  /** The entry at the front of a nonempty string, and how many bytes it takes. */
  function FirstEntry(b: seq<byte>): (r: Result<(Entry, nat)>)
    requires b != []
    ensures r.Ok? ==> 4 <= r.value.1 <= |b|
  {
    var _ :- Require(3 <= |b|, Abort);
    var workerId := b[0];
    var size := U16At(b, 1);
    if workerId == EXECUTOR_WORKER_ID then
      var _ :- Require(1 <= size && 3 + size <= |b|, Abort);
      Ok((Executor(LzOption(b[3], b[4..3 + size])), 3 + size))
    else if workerId == DVN_WORKER_ID then
      var _ :- Require(2 <= size && 3 + size <= |b|, Abort);
      Ok((Dvn(b[3], LzOption(b[4], b[5..3 + size])), 3 + size))
    else Err(InvalidWorkerId)
  }

  function ParseEntries(b: seq<byte>): Result<seq<Entry>> {
    if b == [] then Ok([])
    else
      var first :- FirstEntry(b);
      var rest :- ParseEntries(b[first.1..]);
      Ok([first.0] + rest)
  }

  /** What the entries mean: the executor's options in order, and each DVN's options in order. */
  function ExecutorOf(entries: seq<Entry>): seq<LzOption> {
    if entries == [] then []
    else
      ExecutorOf(entries[..|entries| - 1])
      + var last := entries[|entries| - 1]; if last.Executor? then [last.option] else []
  }

  function DvnOf(entries: seq<Entry>, idx: byte): seq<LzOption> {
    if entries == [] then []
    else
      DvnOf(entries[..|entries| - 1], idx)
      + var last := entries[|entries| - 1]; if last.Dvn? && last.idx == idx then [last.option] else []
  }

  function DvnMap(entries: seq<Entry>): map<byte, seq<LzOption>> {
    if entries == [] then map[]
    else
      var m := DvnMap(entries[..|entries| - 1]);
      var last := entries[|entries| - 1];
      if last.Dvn? then m[last.idx := ListAt(m, last.idx) + [last.option]] else m
  }

  function ListAt(m: map<byte, seq<LzOption>>, idx: byte): seq<LzOption> {
    if idx in m then m[idx] else []
  }

  function ConvertLegacy(formatType: u16, options: seq<byte>): Result<seq<LzOption>> {
    if formatType == TYPE_1 then
      var _ :- Require(|options| == 34, InvalidType1Size);
      var _ :- Require(U128At(options, 2) == 0, ExceededU128);
      Ok([LzOption(OPTION_TYPE_LZRECEIVE, ToBytes(U128At(options, 18), 16))])
    else if formatType == TYPE_2 then
      var _ :- Require(66 < |options| <= 98, InvalidType2Size);
      var _ :- Require(U128At(options, 2) == 0, ExceededU128);
      var _ :- Require(U128At(options, 34) == 0, ExceededU128);
      var _ :- Require(32 <= |options[66..]|, Abort);
      Ok([LzOption(OPTION_TYPE_LZRECEIVE, ToBytes(U128At(options, 18), 16)),
          LzOption(OPTION_TYPE_NATIVE_DROP, ToBytes(U128At(options, 50), 16) + options[66..][..32])])
    else Err(InvalidOptionType)
  }

  function DecodeSpec(options: seq<byte>): Result<Decoded> {
    var _ :- Require(2 <= |options|, Abort);
    var formatType := U16At(options, 0);
    if formatType < TYPE_3 then
      var executor :- ConvertLegacy(formatType, options);
      Ok(Decoded(executor, map[]))
    else if formatType == TYPE_3 then
      var entries :- ParseEntries(options[2..]);
      Ok(Decoded(ExecutorOf(entries), DvnMap(entries)))
    else Err(InvalidOptionType)
  }

  // ---------- the parser, as the program runs it ----------

  /** Parsing `whole` is parsing `b` behind the entries `done`. */
  ghost predicate Behind(whole: seq<byte>, done: seq<Entry>, b: seq<byte>) {
    match ParseEntries(b)
    case Ok(rest) => ParseEntries(whole) == Ok(done + rest)
    case Err(e) => ParseEntries(whole) == Err(e)
  }

  lemma NothingDone(whole: seq<byte>)
    ensures Behind(whole, [], whole)
  {
    assert ParseEntries(whole).Ok? ==> [] + ParseEntries(whole).value == ParseEntries(whole).value;
  }

  lemma AllDone(whole: seq<byte>, done: seq<Entry>)
    requires Behind(whole, done, [])
    ensures ParseEntries(whole) == Ok(done)
  {
    assert done + [] == done;
  }

  lemma AppendEntry(done: seq<Entry>, entry: Entry)
    ensures ExecutorOf(done + [entry]) == ExecutorOf(done) + if entry.Executor? then [entry.option] else []
    ensures DvnMap(done + [entry]) ==
            if entry.Dvn? then DvnMap(done)[entry.idx := ListAt(DvnMap(done), entry.idx) + [entry.option]] else DvnMap(done)
  {
  }

  lemma NextEntry(whole: seq<byte>, done: seq<Entry>, b: seq<byte>, entry: Entry, size: nat)
    requires b != [] && FirstEntry(b) == Ok((entry, size)) && Behind(whole, done, b)
    ensures Behind(whole, done + [entry], b[size..])
  {
    if ParseEntries(b[size..]).Ok? {
      var rest := ParseEntries(b[size..]).value;
      assert done + [entry] + rest == done + ([entry] + rest);
    }
  }

  lemma BadEntry(whole: seq<byte>, done: seq<Entry>, b: seq<byte>)
    requires b != [] && FirstEntry(b).Err? && Behind(whole, done, b)
    ensures ParseEntries(whole) == Err(FirstEntry(b).error)
  {
  }

  /** The first entry behind a cursor, in the program's terms. */
  lemma FirstEntryAt(options: seq<byte>, cursor: nat)
    requires cursor < |options|
    ensures FirstEntry(options[cursor..]) ==
            if |options| < cursor + 3 then Err(Abort)
            else
              var size, body := U16At(options, cursor + 1), cursor + 3;
              if options[cursor] == EXECUTOR_WORKER_ID then
                if size < 1 || |options| < body + size then Err(Abort)
                else Ok((Executor(LzOption(options[body], options[body + 1..body + size])), 3 + size))
              else if options[cursor] == DVN_WORKER_ID then
                if size < 2 || |options| < body + size then Err(Abort)
                else Ok((Dvn(options[body], LzOption(options[body + 1], options[body + 2..body + size])), 3 + size))
              else Err(InvalidWorkerId)
  {
    hide FromBytes;
    var b := options[cursor..];
    assert cursor + 3 <= |options| ==> b[1..3] == options[cursor + 1..cursor + 3];
    var body := cursor + 3;
    if cursor + 3 <= |options| {
      var size := U16At(options, cursor + 1);
      assert 1 <= size && body + size <= |options| ==> b[4..3 + size] == options[body + 1..body + size];
      assert 2 <= size && body + size <= |options| ==> b[5..3 + size] == options[body + 2..body + size];
    }
  }

  /** The loop's state: the entries behind the cursor are in the two collections. */
  ghost predicate Progress(options: seq<byte>, cursor: nat, done: seq<Entry>, executor: seq<LzOption>,
                           dvn: map<byte, seq<LzOption>>)
    requires 2 <= cursor <= |options|
  {
    Behind(options[2..], done, options[cursor..]) && executor == ExecutorOf(done) && dvn == DvnMap(done)
  }

  lemma Starts(options: seq<byte>)
    requires 2 <= |options|
    ensures Progress(options, 2, [], [], map[])
  {
    NothingDone(options[2..]);
  }

  lemma Moves(options: seq<byte>, cursor: nat, done: seq<Entry>, executor: seq<LzOption>, dvn: map<byte, seq<LzOption>>,
              entry: Entry, size: nat)
    requires 2 <= cursor < |options| && Progress(options, cursor, done, executor, dvn)
    requires FirstEntry(options[cursor..]) == Ok((entry, size))
    ensures cursor + size <= |options|
    ensures Behind(options[2..], done + [entry], options[cursor + size..])
  {
    NextEntry(options[2..], done, options[cursor..], entry, size);
    assert options[cursor..][size..] == options[cursor + size..];
  }

  /** One round of the loop, for each of the two workers. */
  lemma ExecutorStep(options: seq<byte>, cursor: nat, done: seq<Entry>, executor: seq<LzOption>,
                     dvn: map<byte, seq<LzOption>>, size: nat, option: LzOption)
    requires 2 <= cursor && cursor + 3 + size <= |options| && 1 <= size == U16At(options, cursor + 1)
    requires options[cursor] == EXECUTOR_WORKER_ID
    requires option == LzOption(options[cursor + 3], options[cursor + 4..cursor + 3 + size])
    requires Progress(options, cursor, done, executor, dvn)
    ensures Progress(options, cursor + 3 + size, done + [Executor(option)], executor + [option], dvn)
  {
    hide Behind, ExecutorOf, DvnMap, FirstEntry, U16At;
    FirstEntryAt(options, cursor);
    Moves(options, cursor, done, executor, dvn, Executor(option), 3 + size);
    AppendEntry(done, Executor(option));
  }

  lemma DvnStep(options: seq<byte>, cursor: nat, done: seq<Entry>, executor: seq<LzOption>,
                dvn: map<byte, seq<LzOption>>, size: nat, idx: byte, option: LzOption)
    requires 2 <= cursor && cursor + 3 + size <= |options| && 2 <= size == U16At(options, cursor + 1)
    requires options[cursor] == DVN_WORKER_ID && idx == options[cursor + 3]
    requires option == LzOption(options[cursor + 4], options[cursor + 5..cursor + 3 + size])
    requires Progress(options, cursor, done, executor, dvn)
    ensures Progress(options, cursor + 3 + size, done + [Dvn(idx, option)], executor,
                     dvn[idx := if idx in dvn then dvn[idx] + [option] else [option]])
  {
    hide Behind, ExecutorOf, DvnMap, FirstEntry, U16At;
    FirstEntryAt(options, cursor);
    Moves(options, cursor, done, executor, dvn, Dvn(idx, option), 3 + size);
    AppendEntry(done, Dvn(idx, option));
    assert [] + [option] == [option] && ExecutorOf(done) + [] == ExecutorOf(done);
  }

  /** The loop ends at an entry that cannot be read. */
  lemma Fails(options: seq<byte>, cursor: nat, done: seq<Entry>, executor: seq<LzOption>, dvn: map<byte, seq<LzOption>>)
    requires 2 <= cursor < |options| && Progress(options, cursor, done, executor, dvn)
    requires U16At(options, 0) == TYPE_3 && FirstEntry(options[cursor..]).Err?
    ensures DecodeSpec(options) == Err(FirstEntry(options[cursor..]).error)
  {
    hide ExecutorOf, DvnMap, FirstEntry, U16At;
    BadEntry(options[2..], done, options[cursor..]);
  }

  lemma Truncated(options: seq<byte>, cursor: nat, done: seq<Entry>, executor: seq<LzOption>,
                  dvn: map<byte, seq<LzOption>>)
    requires 2 <= cursor < |options| && Progress(options, cursor, done, executor, dvn) && U16At(options, 0) == TYPE_3
    requires cursor + 3 <= |options| ==>
               var size := U16At(options, cursor + 1);
               || (options[cursor] == EXECUTOR_WORKER_ID && (size < 1 || |options| < cursor + 3 + size))
               || (options[cursor] == DVN_WORKER_ID && (size < 2 || |options| < cursor + 3 + size))
    ensures DecodeSpec(options) == Err(Abort)
  {
    hide Progress, DecodeSpec, FirstEntry, U16At;
    FirstEntryAt(options, cursor);
    Fails(options, cursor, done, executor, dvn);
  }

  lemma UnknownWorker(options: seq<byte>, cursor: nat, done: seq<Entry>, executor: seq<LzOption>,
                      dvn: map<byte, seq<LzOption>>)
    requires 2 <= cursor && cursor + 3 <= |options| && Progress(options, cursor, done, executor, dvn)
    requires U16At(options, 0) == TYPE_3 && options[cursor] != EXECUTOR_WORKER_ID && options[cursor] != DVN_WORKER_ID
    ensures DecodeSpec(options) == Err(InvalidWorkerId)
  {
    hide Progress, DecodeSpec, FirstEntry, U16At;
    FirstEntryAt(options, cursor);
    Fails(options, cursor, done, executor, dvn);
  }

  lemma Stops(options: seq<byte>, done: seq<Entry>, executor: seq<LzOption>, dvn: map<byte, seq<LzOption>>)
    requires 2 <= |options| && Progress(options, |options|, done, executor, dvn)
    requires U16At(options, 0) == TYPE_3
    ensures DecodeSpec(options) == Ok(Decoded(executor, dvn))
  {
    hide ExecutorOf, DvnMap, FirstEntry, U16At;
    assert options[|options|..] == [];
    AllDone(options[2..], done);
  }

  lemma NotType3(options: seq<byte>)
    ensures |options| < 2 ==> DecodeSpec(options) == Err(Abort)
    ensures 2 <= |options| && U16At(options, 0) > TYPE_3 ==> DecodeSpec(options) == Err(InvalidOptionType)
    ensures 2 <= |options| && U16At(options, 0) < TYPE_3 ==>
              var converted := ConvertLegacy(U16At(options, 0), options);
              DecodeSpec(options) == if converted.Ok? then Ok(Decoded(converted.value, map[])) else Err(converted.error)
  {
    hide ConvertLegacy, U16At;
  }

  method DecodeOptions(options: seq<byte>) returns (r: Result<Decoded>)
    ensures r == DecodeSpec(options)
  {
    hide DecodeSpec, ConvertLegacy, Progress, FirstEntry, U16At;
    NotType3(options);
    if |options| < 2 {
      return Err(Abort);
    }
    var formatType := U16At(options, 0);
    if formatType < TYPE_3 {
      var converted := ConvertLegacy(formatType, options);
      return if converted.Ok? then Ok(Decoded(converted.value, map[])) else Err(converted.error);
    }
    if formatType != TYPE_3 {
      return Err(InvalidOptionType);
    }
    var executorOptions: seq<LzOption> := [];
    var dvnOptions: map<byte, seq<LzOption>> := map[];
    var cursor := 2;
    ghost var done: seq<Entry> := [];
    Starts(options);
    while cursor < |options|
      invariant 2 <= cursor <= |options|
      invariant Progress(options, cursor, done, executorOptions, dvnOptions)
      decreases |options| - cursor
    {
      if |options| < cursor + 3 {
        Truncated(options, cursor, done, executorOptions, dvnOptions);
        return Err(Abort);
      }
      var workerId := options[cursor];
      var optionSize := U16At(options, cursor + 1);
      var body := cursor + 3;
      match workerId {
        case 1 =>
          if optionSize < 1 || |options| < body + optionSize {
            Truncated(options, cursor, done, executorOptions, dvnOptions);
            return Err(Abort);
          }
          var option := LzOption(options[body], options[body + 1..body + optionSize]);
          ExecutorStep(options, cursor, done, executorOptions, dvnOptions, optionSize, option);
          executorOptions := executorOptions + [option];
          done := done + [Executor(option)];
        case 2 =>
          if optionSize < 2 || |options| < body + optionSize {
            Truncated(options, cursor, done, executorOptions, dvnOptions);
            return Err(Abort);
          }
          var idx := options[body];
          var option := LzOption(options[body + 1], options[body + 2..body + optionSize]);
          DvnStep(options, cursor, done, executorOptions, dvnOptions, optionSize, idx, option);
          if idx in dvnOptions {
            dvnOptions := dvnOptions[idx := dvnOptions[idx] + [option]];
          } else {
            dvnOptions := dvnOptions[idx := [option]];
          }
          done := done + [Dvn(idx, option)];
        case _ =>
          UnknownWorker(options, cursor, done, executorOptions, dvnOptions);
          return Err(InvalidWorkerId);
      }
      cursor := body + optionSize;
    }
    Stops(options, done, executorOptions, dvnOptions);
    return Ok(Decoded(executorOptions, dvnOptions));
  }

  // ---------- the encoders ----------

  /** The size field is the parameter length cut to 16 bits, plus the bytes of the head. */
  function EncodeWith(workerId: byte, head: seq<byte>, params: seq<byte>): Result<seq<byte>> {
    var size := |params| % 0x1_0000 + |head|;
    var _ :- Require(size <= 0xFFFF, Abort);
    Ok([workerId] + ToBytes(size, 2) + head + params)
  }

  function EncodeEntry(e: Entry): Result<seq<byte>> {
    match e
    case Executor(option) => EncodeWith(EXECUTOR_WORKER_ID, [option.optionType], option.params)
    case Dvn(idx, option) => EncodeWith(DVN_WORKER_ID, [idx, option.optionType], option.params)
  }

  function EncodeEntries(entries: seq<Entry>): Result<seq<byte>> {
    if entries == [] then Ok([])
    else
      var first :- EncodeEntry(entries[0]);
      var rest :- EncodeEntries(entries[1..]);
      Ok(first + rest)
  }

  /** A whole string of type 3. */
  function EncodeType3(entries: seq<Entry>): Result<seq<byte>> {
    var body :- EncodeEntries(entries);
    Ok(ToBytes(TYPE_3, 2) + body)
  }

  predicate Fits(e: Entry) {
    |e.option.params| + (if e.Executor? then 1 else 2) <= 0xFFFF
  }

  /** A receive option names a value only if there is one. */
  function LzReceiveEntry(gas: u128, value: u128): Entry {
    var params := if value == 0 then ToBytes(gas, 16) else ToBytes(gas, 16) + ToBytes(value, 16);
    Executor(LzOption(OPTION_TYPE_LZRECEIVE, params))
  }

  function NativeDropEntry(amount: u128, receiver: Bytes32): Entry {
    Executor(LzOption(OPTION_TYPE_NATIVE_DROP, ToBytes(amount, 16) + receiver))
  }

  function PrecrimeEntry(idx: byte): Entry {
    Dvn(idx, LzOption(DVN_OPTION_TYPE_PRECRIME, []))
  }

  lemma {:induction false} EncodeAppend(entries: seq<Entry>, e: Entry)
    ensures EncodeEntries(entries).Ok? && EncodeEntry(e).Ok? ==>
              EncodeEntries(entries + [e]) == Ok(EncodeEntries(entries).value + EncodeEntry(e).value)
  {
    hide EncodeEntry;
    if entries == [] {
      assert [e][1..] == [] && [] + [e] == [e];
      assert EncodeEntry(e).Ok? ==> EncodeEntry(e).value + [] == [] + EncodeEntry(e).value;
    } else {
      EncodeAppend(entries[1..], e);
      assert (entries + [e])[1..] == entries[1..] + [e];
      if EncodeEntries(entries).Ok? && EncodeEntry(e).Ok? {
        var first, rest, last := EncodeEntry(entries[0]).value, EncodeEntries(entries[1..]).value, EncodeEntry(e).value;
        assert first + (rest + last) == first + rest + last;
      }
    }
  }

  /** The builder of the sender's SDK.  It holds bytes only; `entries` is the list that they encode. */
  class OptionsUtil {
    var value: seq<byte>
    ghost var entries: seq<Entry>

    ghost predicate Valid()
      reads this
    {
      EncodeType3(entries) == Ok(value)
    }

    constructor ()
      ensures Valid() && entries == [] && value == ToBytes(TYPE_3, 2)
    {
      value := ToBytes(TYPE_3, 2);
      entries := [];
      new;
      assert ToBytes(TYPE_3, 2) + [] == ToBytes(TYPE_3, 2);
    }

    /** The call for any worker id; only for the executor's does it add an entry. */
    method AddOption(workerId: byte, optionType: byte, option: seq<byte>) returns (r: Result<()>)
      modifies this
      ensures match EncodeWith(workerId, [optionType], option)
              case Ok(bytes) => r == Ok(()) && value == old(value) + bytes
              case Err(e) => r == Err(e) && value == old(value)
      ensures workerId == EXECUTOR_WORKER_ID && old(Valid()) ==> Valid()
      ensures entries == if r.Ok? && workerId == EXECUTOR_WORKER_ID
                         then old(entries) + [Executor(LzOption(optionType, option))] else old(entries)
    {
      var len: int := |option| % 0x1_0000;
      if len + 1 > 0xFFFF {
        return Err(Abort);
      }
      var encoded := [workerId] + ToBytes(len + 1, 2) + [optionType] + option;
      value := value + encoded;
      if workerId == EXECUTOR_WORKER_ID {
        ghost var entry := Executor(LzOption(optionType, option));
        Appended(old(value), old(entries), entry);
        entries := entries + [entry];
      }
      return Ok(());
    }

    method AddExecutorOption(optionType: byte, option: seq<byte>) returns (r: Result<()>)
      requires Valid()
      modifies this
      ensures Valid()
      ensures var entry := Executor(LzOption(optionType, option));
              && (r.Ok? <==> EncodeEntry(entry).Ok?)
              && entries == if r.Ok? then old(entries) + [entry] else old(entries)
    {
      r := AddOption(EXECUTOR_WORKER_ID, optionType, option);
    }

    method AddDvnOption(dvnIdx: byte, optionType: byte, option: seq<byte>) returns (r: Result<()>)
      requires Valid()
      modifies this
      ensures Valid()
      ensures var entry := Dvn(dvnIdx, LzOption(optionType, option));
              && (r.Ok? <==> EncodeEntry(entry).Ok?)
              && entries == if r.Ok? then old(entries) + [entry] else old(entries)
    {
      var len := |option| % 0x1_0000;
      if len + 2 > 0xFFFF {
        return Err(Abort);
      }
      var encoded := [DVN_WORKER_ID] + ToBytes(len + 2, 2) + [dvnIdx, optionType] + option;
      value := value + encoded;
      ghost var entry := Dvn(dvnIdx, LzOption(optionType, option));
      Appended(old(value), old(entries), entry);
      entries := entries + [entry];
      return Ok(());
    }

    method AddExecutorLzReceiveOption(gas: u128, nativeValue: u128) returns (r: Result<()>)
      requires Valid()
      modifies this
      ensures Valid() && r.Ok? && entries == old(entries) + [LzReceiveEntry(gas, nativeValue)]
    {
      var params := if nativeValue == 0 then ToBytes(gas, 16) else ToBytes(gas, 16) + ToBytes(nativeValue, 16);
      r := AddExecutorOption(OPTION_TYPE_LZRECEIVE, params);
    }

    method AddExecutorNativeDropOption(amount: u128, receiver: Bytes32) returns (r: Result<()>)
      requires Valid()
      modifies this
      ensures Valid() && r.Ok? && entries == old(entries) + [NativeDropEntry(amount, receiver)]
    {
      r := AddExecutorOption(OPTION_TYPE_NATIVE_DROP, ToBytes(amount, 16) + receiver);
    }

    method AddDvnPrecrimeOption(dvnIdx: byte) returns (r: Result<()>)
      requires Valid()
      modifies this
      ensures Valid() && r.Ok? && entries == old(entries) + [PrecrimeEntry(dvnIdx)]
    {
      r := AddDvnOption(dvnIdx, DVN_OPTION_TYPE_PRECRIME, []);
    }
  }

  /** A builder that has encoded `entries` and appends one more entry has encoded them all. */
  lemma Appended(value: seq<byte>, entries: seq<Entry>, e: Entry)
    ensures EncodeType3(entries) == Ok(value) && EncodeEntry(e).Ok? ==>
              EncodeType3(entries + [e]) == Ok(value + EncodeEntry(e).value)
  {
    hide EncodeEntry, EncodeEntries, ToBytes;
    EncodeAppend(entries, e);
    if EncodeEntries(entries).Ok? && EncodeEntry(e).Ok? {
      var head, body, last := ToBytes(TYPE_3, 2), EncodeEntries(entries).value, EncodeEntry(e).value;
      assert head + (body + last) == head + body + last;
    }
  }

  // ---------- parsing and encoding are inverse ----------

  lemma SizeField(size: nat)
    requires size <= 0xFFFF
    ensures FromBytes(ToBytes(size, 2)) == size
  {
    FieldWidths();
    FromToBytes(size, 2);
  }

  lemma EntryLayout(workerId: byte, size: seq<byte>, head: seq<byte>, params: seq<byte>, rest: seq<byte>)
    requires |size| == 2
    ensures var b := [workerId] + size + head + params + rest;
            && b[0] == workerId && b[1..3] == size && b[3..3 + |head|] == head
            && b[3 + |head|..3 + |head| + |params|] == params
            && b[3 + |head| + |params|..] == rest
  {
  }

  /** An encoded entry in front of other bytes is read back exactly if its size fits the field; otherwise
      something else is read, if anything. */
  lemma FirstOfEncoded(e: Entry, rest: seq<byte>)
    ensures Fits(e) ==> EncodeEntry(e).Ok?
    ensures EncodeEntry(e).Ok? ==>
              var bytes := EncodeEntry(e).value;
              && 4 <= |bytes|
              && (Fits(e) ==> FirstEntry(bytes + rest) == Ok((e, |bytes|)))
              && (FirstEntry(bytes + rest).Ok? && FirstEntry(bytes + rest).value.0 == e ==> Fits(e))
  {
    hide ToBytes, FromBytes;
    if EncodeEntry(e).Ok? {
      var head := if e.Executor? then [e.option.optionType] else [e.idx, e.option.optionType];
      var size := |e.option.params| % 0x1_0000 + |head|;
      var b := EncodeEntry(e).value + rest;
      SizeField(size);
      EntryLayout(if e.Executor? then EXECUTOR_WORKER_ID else DVN_WORKER_ID, ToBytes(size, 2), head, e.option.params, rest);
      assert b[3] == b[3..3 + |head|][0];
      assert e.Dvn? ==> b[4] == b[3..3 + |head|][1];
    }
  }

  /** Encoded options are decoded in order, exactly if every option fits its size field. */
  lemma {:induction false} RoundTrip(entries: seq<Entry>)
    ensures EncodeEntries(entries).Ok? && ParseEntries(EncodeEntries(entries).value) == Ok(entries)
            <==> forall e | e in entries :: Fits(e)
  {
    if entries != [] {
      hide EncodeEntry, FirstEntry, Fits;
      RoundTrip(entries[1..]);
      assert entries == [entries[0]] + entries[1..];
      FirstOfEncoded(entries[0], []);
      if EncodeEntries(entries).Ok? {
        var bytes := EncodeEntry(entries[0]).value;
        var rest := EncodeEntries(entries[1..]).value;
        FirstOfEncoded(entries[0], rest);
        if Fits(entries[0]) {
          assert (bytes + rest)[|bytes|..] == rest;
        }
      }
    }
  }

  lemma SplitEntry(b: seq<byte>, head: nat, size: nat)
    requires 3 + head <= size <= |b|
    ensures b[..size] == [b[0]] + b[1..3] + b[3..3 + head] + b[3 + head..size]
  {
  }

  lemma EncodedFirst(b: seq<byte>)
    requires b != [] && FirstEntry(b).Ok?
    ensures var (entry, size) := FirstEntry(b).value;
            Fits(entry) && EncodeEntry(entry) == Ok(b[..size])
  {
    hide ToBytes, FromBytes;
    var (entry, size) := FirstEntry(b).value;
    ToFromBytes(b[1..3]);
    var head := if entry.Executor? then 1 else 2;
    SplitEntry(b, head, size);
    assert b[3..3 + head] == if entry.Executor? then [b[3]] else [b[3], b[4]];
  }

  /** The other direction: a string that parses is the encoding of what was parsed, so the parser stops
      exactly at its end and no two strings mean the same list. */
  lemma {:induction false} ParsedIsEncoded(b: seq<byte>)
    requires ParseEntries(b).Ok?
    ensures EncodeEntries(ParseEntries(b).value) == Ok(b)
    ensures forall e | e in ParseEntries(b).value :: Fits(e)
  {
    hide FirstEntry, EncodeEntry, Fits;
    if b != [] {
      var (entry, size) := FirstEntry(b).value;
      var rest := ParseEntries(b[size..]).value;
      assert ParseEntries(b).value == [entry] + rest;
      hide EncodeEntries, ParseEntries;
      EncodedFirst(b);
      ParsedIsEncoded(b[size..]);
      EncodeStep(entry, rest);
      assert b[..size] + b[size..] == b;
    }
  }

  lemma EncodeStep(entry: Entry, rest: seq<Entry>)
    requires EncodeEntry(entry).Ok? && EncodeEntries(rest).Ok?
    ensures EncodeEntries([entry] + rest) == Ok(EncodeEntry(entry).value + EncodeEntries(rest).value)
  {
  }

  lemma ParseStep(b: seq<byte>, entry: Entry, size: nat)
    requires b != [] && FirstEntry(b) == Ok((entry, size))
    ensures ParseEntries(b) ==
            match ParseEntries(b[size..])
            case Ok(rest) => Ok([entry] + rest)
            case Err(e) => Err(e)
  {
  }

  lemma SingleEntry(e: Entry)
    requires Fits(e)
    ensures EncodeEntry(e).Ok? && EncodeEntries([e]) == EncodeEntry(e) && ParseEntries(EncodeEntry(e).value) == Ok([e])
  {
    RoundTrip([e]);
    hide ParseEntries, ToBytes;
    assert [e][1..] == [] && EncodeEntry(e).value + [] == EncodeEntry(e).value;
  }

  lemma EncodedBytes(workerId: byte, head: seq<byte>, params: seq<byte>, size: nat)
    requires size == |params| + |head| <= 0xFFFF
    ensures EncodeWith(workerId, head, params) == Ok([workerId] + ToBytes(size, 2) + head + params)
  {
    hide ToBytes;
    assert |params| % 0x1_0000 == |params|;
  }

  /** The bytes of the two kinds of entries, in both directions: worker, size, then for a DVN its index, the
      option's type and its parameters. */
  lemma ExecutorOnTheWire(optionType: byte, params: seq<byte>)
    requires |params| + 1 <= 0xFFFF
    ensures var entry := Executor(LzOption(optionType, params));
            var bytes := [1] + ToBytes(|params| + 1, 2) + [optionType] + params;
            EncodeEntries([entry]) == Ok(bytes) && ParseEntries(bytes) == Ok([entry])
  {
    EncodedBytes(1, [optionType], params, |params| + 1);
    hide EncodeWith, EncodeEntries, ParseEntries, ToBytes;
    SingleEntry(Executor(LzOption(optionType, params)));
  }

  lemma DvnOnTheWire(idx: byte, optionType: byte, params: seq<byte>)
    requires |params| + 2 <= 0xFFFF
    ensures var entry := Dvn(idx, LzOption(optionType, params));
            var bytes := [2] + ToBytes(|params| + 2, 2) + [idx, optionType] + params;
            EncodeEntries([entry]) == Ok(bytes) && ParseEntries(bytes) == Ok([entry])
  {
    EncodedBytes(2, [idx, optionType], params, |params| + 2);
    hide EncodeWith, EncodeEntries, ParseEntries, ToBytes;
    SingleEntry(Dvn(idx, LzOption(optionType, params)));
  }

  // ---------- combining enforced and extra options ----------

  function CombineSpec(enforced: seq<byte>, extra: seq<byte>): Result<seq<byte>> {
    if enforced == [] then Ok(extra)
    else if extra == [] then Ok(enforced)
    else if 2 <= |extra| && U16At(extra, 0) == TYPE_3 then Ok(enforced + extra[2..])
    else Err(InvalidOptions)
  }

  /** The program extends the enforced vector in place. */
  method CombineOptions(enforcedOptions: seq<byte>, extraOptions: seq<byte>) returns (r: Result<seq<byte>>)
    ensures r == CombineSpec(enforcedOptions, extraOptions)
  {
    var enforced := enforcedOptions;
    if |enforced| == 0 {
      return Ok(extraOptions);
    }
    if |extraOptions| == 0 {
      return Ok(enforced);
    }
    if |extraOptions| >= 2 {
      if U16At(extraOptions, 0) != TYPE_3 {
        return Err(InvalidOptions);
      }
      enforced := enforced + extraOptions[2..];
      return Ok(enforced);
    }
    return Err(InvalidOptions);
  }

  lemma FirstIsLocal(b: seq<byte>, tail: seq<byte>)
    requires b != [] && FirstEntry(b).Ok?
    ensures FirstEntry(b + tail) == FirstEntry(b)
  {
    var c := b + tail;
    var (entry, size) := FirstEntry(b).value;
    assert c[1..3] == b[1..3];
    assert c[4..size] == b[4..size];
    assert entry.Dvn? ==> c[5..size] == b[5..size];
  }

  lemma ParseConcatStep(b: seq<byte>, tail: seq<byte>, entry: Entry, size: nat, rest: seq<Entry>)
    requires b != [] && FirstEntry(b) == Ok((entry, size)) && Behind(b[size..] + tail, rest, tail)
    ensures Behind(b + tail, [entry] + rest, tail)
  {
    FirstIsLocal(b, tail);
    assert (b + tail)[size..] == b[size..] + tail;
    ParseStep(b + tail, entry, size);
    hide FirstEntry, ParseEntries;
    if ParseEntries(tail).Ok? {
      assert [entry] + (rest + ParseEntries(tail).value) == [entry] + rest + ParseEntries(tail).value;
    }
  }

  /** Behind a string that parses, parsing goes on as if it started afresh. */
  lemma {:induction false} ParseConcat(b: seq<byte>, tail: seq<byte>)
    requires ParseEntries(b).Ok?
    ensures Behind(b + tail, ParseEntries(b).value, tail)
  {
    hide Behind, FirstEntry;
    if b == [] {
      assert b + tail == tail;
      NothingDone(tail);
    } else {
      var (entry, size) := FirstEntry(b).value;
      ParseConcat(b[size..], tail);
      ParseConcatStep(b, tail, entry, size, ParseEntries(b[size..]).value);
    }
  }

  lemma {:induction false} MeaningConcat(one: seq<Entry>, two: seq<Entry>, idx: byte)
    ensures ExecutorOf(one + two) == ExecutorOf(one) + ExecutorOf(two)
    ensures DvnOf(one + two, idx) == DvnOf(one, idx) + DvnOf(two, idx)
  {
    if two == [] {
      assert one + two == one;
    } else {
      var front := two[..|two| - 1];
      assert (one + two)[..|one + two| - 1] == one + front;
      MeaningConcat(one, front, idx);
    }
  }

  /** The map holds, under each index that occurs, that DVN's options in order. */
  lemma {:induction false} DvnMapHolds(entries: seq<Entry>, idx: byte)
    ensures ListAt(DvnMap(entries), idx) == DvnOf(entries, idx)
    ensures idx in DvnMap(entries) <==> DvnOf(entries, idx) != []
  {
    if entries != [] {
      DvnMapHolds(entries[..|entries| - 1], idx);
    }
  }

  predicate IsType3(options: seq<byte>) {
    2 <= |options| && U16At(options, 0) == TYPE_3
  }

  /** Combining preserves meaning: the executor gets the enforced options and then the extra ones, and so
      does every DVN; and the combination decodes exactly if the extra options do. */
  lemma CombinePreservesMeaning(enforced: seq<byte>, extra: seq<byte>)
    requires IsType3(enforced) && IsType3(extra) && DecodeSpec(enforced).Ok?
    ensures CombineSpec(enforced, extra).Ok?
    ensures var combined := DecodeSpec(CombineSpec(enforced, extra).value);
            var e := DecodeSpec(enforced).value;
            && (combined.Ok? <==> DecodeSpec(extra).Ok?)
            && (combined.Err? ==> combined == DecodeSpec(extra))
            && (combined.Ok? ==>
                  var x := DecodeSpec(extra).value;
                  && combined.value.executor == e.executor + x.executor
                  && forall idx: byte ::
                       && ListAt(combined.value.dvn, idx) == ListAt(e.dvn, idx) + ListAt(x.dvn, idx)
                       && (idx in combined.value.dvn <==> idx in e.dvn || idx in x.dvn))
  {
    var combined := enforced + extra[2..];
    assert combined[0..2] == enforced[0..2] && combined[2..] == enforced[2..] + extra[2..];
    ParseConcat(enforced[2..], extra[2..]);
    hide ParseEntries, DvnMap, FromBytes;
    if DecodeSpec(extra).Ok? {
      var e := ParseEntries(enforced[2..]).value;
      var x := ParseEntries(extra[2..]).value;
      MeaningConcat(e, x, 0);
      forall idx: byte
        ensures ListAt(DvnMap(e + x), idx) == ListAt(DvnMap(e), idx) + ListAt(DvnMap(x), idx)
        ensures idx in DvnMap(e + x) <==> idx in DvnMap(e) || idx in DvnMap(x)
      {
        MeaningConcat(e, x, idx);
        DvnMapHolds(e + x, idx);
        DvnMapHolds(e, idx);
        DvnMapHolds(x, idx);
      }
    }
  }

  /** What the sender's OptionsUtil builds is decoded to what was added. */
  lemma BuiltIsDecoded(entries: seq<Entry>)
    requires forall e | e in entries :: Fits(e)
    ensures EncodeType3(entries).Ok?
    ensures DecodeSpec(EncodeType3(entries).value) == Ok(Decoded(ExecutorOf(entries), DvnMap(entries)))
  {
    RoundTrip(entries);
    SizeField(TYPE_3);
    var b := ToBytes(TYPE_3, 2) + EncodeEntries(entries).value;
    assert b[0..2] == ToBytes(TYPE_3, 2) && b[2..] == EncodeEntries(entries).value;
  }

  /** After any series of calls that kept the builder valid, its bytes are decoded to what was added. */
  lemma BuilderIsDecoded(builder: OptionsUtil)
    requires builder.Valid() && forall e | e in builder.entries :: Fits(e)
    ensures DecodeSpec(builder.value) == Ok(Decoded(ExecutorOf(builder.entries), DvnMap(builder.entries)))
  {
    BuiltIsDecoded(builder.entries);
  }

  // ---------- legacy options ----------

  /** The legacy encoders write numbers of 256 bits. */
  function EncodeLegacy1(gas: nat): seq<byte> {
    ToBytes(TYPE_1, 2) + ToBytes(gas, 32)
  }

  function EncodeLegacy2(gas: nat, amount: nat, receiver: Bytes32): seq<byte> {
    ToBytes(TYPE_2, 2) + ToBytes(gas, 32) + ToBytes(amount, 32) + receiver
  }

  /** Each string begins with the two bytes of its format. */
  lemma FormatsOnTheWire(gas: nat, amount: nat, receiver: Bytes32, entries: seq<Entry>)
    ensures EncodeLegacy1(gas) == [0, 1] + ToBytes(gas, 32)
    ensures EncodeLegacy2(gas, amount, receiver) == [0, 2] + ToBytes(gas, 32) + ToBytes(amount, 32) + receiver
    ensures EncodeEntries(entries).Ok? ==> EncodeType3(entries) == Ok([0, 3] + EncodeEntries(entries).value)
  {
    SmallFormat(1);
    SmallFormat(2);
    SmallFormat(3);
    hide ToBytes, EncodeEntries;
  }

  lemma SmallFormat(formatType: byte)
    ensures ToBytes(formatType, 2) == [0, formatType]
  {
    BigEndian(formatType, 2, 0);
    BigEndian(formatType, 2, 1);
  }

  lemma LastByte(s: seq<byte>)
    requires s != []
    ensures FromBytes(s) == 256 * FromBytes(s[..|s| - 1]) + s[|s| - 1] && Pow256(|s|) == 256 * Pow256(|s| - 1)
  {
  }

  lemma {:induction false} FromBytesConcat(s: seq<byte>, t: seq<byte>)
    ensures FromBytes(s + t) == FromBytes(s) * Pow256(|t|) + FromBytes(t)
  {
    if t == [] {
      assert s + t == s;
    } else {
      LastByte(t);
      LastByte(s + t);
      hide FromBytes, Pow256;
      var front := t[..|t| - 1];
      assert (s + t)[..|s + t| - 1] == s + front;
      FromBytesConcat(s, front);
      TimesAssociates(FromBytes(s), Pow256(|front|));
    }
  }

  lemma TimesAssociates(x: nat, p: nat)
    ensures x * (256 * p) == 256 * (x * p)
  {
  }

  lemma TwoHalves(hi: seq<byte>, lo: seq<byte>)
    requires |lo| == 16
    ensures FromBytes(hi + lo) == FromBytes(hi) * (U128_MAX + 1) + FromBytes(lo)
    ensures FromBytes(lo) <= U128_MAX
  {
    FieldWidths();
    FromBytesConcat(hi, lo);
    hide FromBytes, Pow256;
    assert Pow256(|lo|) == U128_MAX + 1;
  }

  /** A 256-bit number fits 128 bits exactly if its high half is zero, and is then its low half. */
  lemma HalvesOf(value: nat)
    requires value < Pow256(32)
    ensures var b := ToBytes(value, 32);
            && (FromBytes(b[..16]) == 0 <==> value <= U128_MAX)
            && (value <= U128_MAX ==> FromBytes(b[16..]) == value && b[16..] == ToBytes(value, 16))
  {
    hide FromBytes, ToBytes, Pow256;
    FromToBytes(value, 32);
    var b := ToBytes(value, 32);
    assert b == b[..16] + b[16..];
    TwoHalves(b[..16], b[16..]);
    ToFromBytes(b[16..]);
  }

  /** The same, where the program reads the two halves inside a string. */
  lemma WideField(options: seq<byte>, start: nat, value: nat)
    requires value < Pow256(32) && start + 32 <= |options| && options[start..start + 32] == ToBytes(value, 32)
    ensures U128At(options, start) == 0 <==> value <= U128_MAX
    ensures value <= U128_MAX ==> U128At(options, start + 16) == value
  {
    HalvesOf(value);
    hide FromBytes, ToBytes, Pow256;
    assert options[start..start + 16] == options[start..start + 32][..16];
    assert options[start + 16..start + 32] == options[start..start + 32][16..];
  }

  lemma PairMeaning(d: Entry, e: Entry)
    requires d.Executor? && e.Executor?
    ensures ExecutorOf([d]) == [d.option] && DvnMap([d]) == map[]
    ensures ExecutorOf([d, e]) == [d.option, e.option] && DvnMap([d, e]) == map[]
  {
  }

  lemma LegacyHead(formatType: u16, rest: seq<byte>)
    ensures var b := ToBytes(formatType, 2) + rest;
            2 <= |b| && U16At(b, 0) == formatType && b[2..] == rest
  {
    SizeField(formatType);
    hide FromBytes, ToBytes;
    assert (ToBytes(formatType, 2) + rest)[0..2] == ToBytes(formatType, 2);
  }

  lemma Legacy1Decodes(gas: nat)
    requires gas < Pow256(32)
    ensures DecodeSpec(EncodeLegacy1(gas)) ==
            if gas <= U128_MAX then Ok(Decoded([LzReceiveEntry(gas, 0).option], map[])) else Err(ExceededU128)
  {
    hide FromBytes, ToBytes, Pow256, ParseEntries, U16At, U128At;
    var b := EncodeLegacy1(gas);
    LegacyHead(TYPE_1, ToBytes(gas, 32));
    assert b[2..34] == b[2..];
    WideField(b, 2, gas);
  }

  /** A legacy type-1 string means the type-3 string with one receive option, as long as the gas fits. */
  lemma Legacy1IsType3(gas: nat)
    requires gas < Pow256(32)
    ensures gas <= U128_MAX ==> EncodeType3([LzReceiveEntry(gas, 0)]).Ok?
    ensures DecodeSpec(EncodeLegacy1(gas)) ==
            if gas <= U128_MAX then DecodeSpec(EncodeType3([LzReceiveEntry(gas, 0)]).value) else Err(ExceededU128)
  {
    hide DecodeSpec, EncodeLegacy1, EncodeType3, ExecutorOf, DvnMap, ToBytes;
    Legacy1Decodes(gas);
    if gas <= U128_MAX {
      BuiltIsDecoded([LzReceiveEntry(gas, 0)]);
      PairMeaning(LzReceiveEntry(gas, 0), LzReceiveEntry(gas, 0));
    }
  }

  lemma FourParts(t: seq<byte>, g: seq<byte>, a: seq<byte>, r: seq<byte>)
    requires |t| == 2 && |g| == 32 && |a| == 32 && |r| == 32
    ensures var b := t + g + a + r;
            b == t + (g + a + r) && b[2..34] == g && b[34..66] == a && b[66..] == r && r[..32] == r
  {
  }

  lemma Legacy2Decodes(gas: nat, amount: nat, receiver: Bytes32)
    requires gas < Pow256(32) && amount < Pow256(32)
    ensures DecodeSpec(EncodeLegacy2(gas, amount, receiver)) ==
            if gas <= U128_MAX && amount <= U128_MAX
            then Ok(Decoded([LzReceiveEntry(gas, 0).option, NativeDropEntry(amount, receiver).option], map[]))
            else Err(ExceededU128)
  {
    var b := EncodeLegacy2(gas, amount, receiver);
    LegacyHead(TYPE_2, ToBytes(gas, 32) + ToBytes(amount, 32) + receiver);
    hide FromBytes, ToBytes, Pow256, ParseEntries;
    FourParts(ToBytes(TYPE_2, 2), ToBytes(gas, 32), ToBytes(amount, 32), receiver);
    WideField(b, 2, gas);
    WideField(b, 34, amount);
  }

  /** A legacy type-2 string means a receive option and a native drop. */
  lemma Legacy2IsType3(gas: nat, amount: nat, receiver: Bytes32)
    requires gas < Pow256(32) && amount < Pow256(32)
    ensures gas <= U128_MAX && amount <= U128_MAX ==> EncodeType3([LzReceiveEntry(gas, 0), NativeDropEntry(amount, receiver)]).Ok?
    ensures DecodeSpec(EncodeLegacy2(gas, amount, receiver)) ==
            if gas <= U128_MAX && amount <= U128_MAX
            then DecodeSpec(EncodeType3([LzReceiveEntry(gas, 0), NativeDropEntry(amount, receiver)]).value)
            else Err(ExceededU128)
  {
    hide DecodeSpec, EncodeLegacy2, EncodeType3, ExecutorOf, DvnMap, ToBytes;
    Legacy2Decodes(gas, amount, receiver);
    if gas <= U128_MAX && amount <= U128_MAX {
      BuiltIsDecoded([LzReceiveEntry(gas, 0), NativeDropEntry(amount, receiver)]);
      PairMeaning(LzReceiveEntry(gas, 0), NativeDropEntry(amount, receiver));
    }
  }

  /** Which legacy strings decode: the size check of type 2 lets 67 to 97 bytes pass, but the receiver is
      then cut short and the program aborts. */
  lemma LegacySizes(options: seq<byte>)
    requires 2 <= |options| && U16At(options, 0) < TYPE_3
    ensures DecodeSpec(options).Ok? <==>
            || (U16At(options, 0) == TYPE_1 && |options| == 34 && U128At(options, 2) == 0)
            || (U16At(options, 0) == TYPE_2 && |options| == 98 && U128At(options, 2) == 0 && U128At(options, 34) == 0)
    ensures U16At(options, 0) == TYPE_2 && 66 < |options| < 98 && U128At(options, 2) == 0 && U128At(options, 34) == 0 ==>
              DecodeSpec(options) == Err(Abort)
    ensures DecodeSpec(options).Ok? ==> DecodeSpec(options).value.dvn == map[]
  {
    hide FromBytes, ToBytes;
  }

  /** Where combining stops preserving meaning.  Without enforced options anything passes, without extra
      options the enforced ones pass, and extra options of another type are refused.  Legacy enforced options
      that decode are combined with extra ones into bytes that do not. */
  lemma CombineAtTheEdges(enforced: seq<byte>, extra: seq<byte>)
    ensures CombineSpec([], extra) == Ok(extra) && CombineSpec(enforced, []) == Ok(enforced)
    ensures CombineSpec(enforced, extra).Err? <==> enforced != [] && extra != [] && !IsType3(extra)
    ensures IsType3(extra) && 2 < |extra| && !IsType3(enforced) && DecodeSpec(enforced).Ok? ==>
              CombineSpec(enforced, extra).Ok? && DecodeSpec(CombineSpec(enforced, extra).value).Err?
  {
    hide FromBytes, ToBytes, DecodeSpec, U16At;
    if IsType3(extra) && 2 < |extra| && !IsType3(enforced) && DecodeSpec(enforced).Ok? {
      LegacyOrType3(enforced);
      LegacySizes(enforced);
      var combined := enforced + extra[2..];
      SameType(enforced, extra[2..]);
      LegacySizes(combined);
    }
  }

  lemma LegacyOrType3(options: seq<byte>)
    requires DecodeSpec(options).Ok?
    ensures 2 <= |options| && U16At(options, 0) <= TYPE_3
  {
  }

  lemma SameType(options: seq<byte>, tail: seq<byte>)
    requires 2 <= |options|
    ensures U16At(options + tail, 0) == U16At(options, 0)
  {
    assert (options + tail)[0..2] == options[0..2];
  }
}
