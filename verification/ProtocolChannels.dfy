/** Inside a run of the whole protocol, every channel lives a run of its own; so everything proved about
    channel runs holds end to end. */
module ProtocolChannels {
  import opened Common
  import opened MessagingChannel
  import opened EndpointChannel
  import opened Protocol
  import opened UlnConfiguration
  import opened CheckVerifiable
  import Libs = ReceiveLibraries
  import Runs = ChannelRuns

  /** The channel instructions that the first `k` steps performed on a path, by whatever route. */
  ghost function Instructions(steps: seq<Step>, k: nat, path: Path): seq<Instruction>
    requires k <= |steps|
  {
    if k == 0 then []
    else Instructions(steps, k - 1, path) + if ActsOn(steps[k - 1], path) then [Effect(steps[k - 1]).value.1] else []
  }

  lemma {:induction false} NoChannelNoInstructions(states: seq<State>, steps: seq<Step>, k: nat, path: Path)
    requires Protocol.Run(states, steps) && k < |states| && path !in states[k].channels
    ensures Instructions(steps, k, path) == []
  {
    if k > 0 {
      hide Next;
      StepFactors(states[k - 1], steps[k - 1], path);
      ChannelsStay(states[k - 1], steps[k - 1], path);
      NoChannelNoInstructions(states, steps, k - 1, path);
    }
  }

  lemma ChannelsStay(s: State, step: Step, path: Path)
    requires Next(s, step).Ok?
    ensures path in s.channels ==> path in Next(s, step).value.channels
    ensures ActsOn(step, path) ==> path in s.channels
  {
    hide EndpointChannel.Step, Libs.Apply, SetConfigSpec, SetDefaultConfigSpec, CheckVerifiableSpec, ReceiveConfig, ShowAll;
    StepFactors(s, step, path);
  }

  /** The projection: the states of one channel along a run of the protocol. */
  lemma {:induction false} ChannelLivesARun(states: seq<State>, steps: seq<Step>, k: nat, path: Path)
    returns (channels: seq<Channel>)
    requires Protocol.Run(states, steps) && k < |states| && path in states[k].channels
    ensures Runs.Run(channels, Instructions(steps, k, path))
    ensures channels[|channels| - 1] == states[k].channels[path]
    decreases k
  {
    hide Next, EndpointChannel.Step;
    assert k > 0;
    var s, step := states[k - 1], steps[k - 1];
    StepFactors(s, step, path);
    ChannelsStay(s, step, path);
    if path in s.channels {
      channels := ChannelLivesARun(states, steps, k - 1, path);
      if ActsOn(step, path) {
        channels := channels + [states[k].channels[path]];
      }
    } else {
      NoChannelNoInstructions(states, steps, k - 1, path);
      channels := [states[k].channels[path]];
    }
  }

  lemma {:induction false} InstructionsGrow(steps: seq<Step>, j: nat, k: nat, path: Path)
    requires j < k <= |steps| && ActsOn(steps[j], path)
    ensures |Instructions(steps, j, path)| < |Instructions(steps, k, path)|
    ensures Instructions(steps, k, path)[|Instructions(steps, j, path)|] == Effect(steps[j]).value.1
    decreases k
  {
    if j < k - 1 {
      InstructionsGrow(steps, j, k - 1, path);
    }
  }

  /** End to end, a nonce of a path that was cleared, burnt or skipped is never acted on again, whichever
      library or DVN tries. */
  lemma DeliveredAtMostOnce(states: seq<State>, steps: seq<Step>, j: nat, k: nat, path: Path)
    requires Protocol.Run(states, steps) && j < k < |steps|
    requires ActsOn(steps[j], path) && ActsOn(steps[k], path) && Effect(steps[j]).value.1.Closes()
    ensures Effect(steps[k]).value.1.nonce != Effect(steps[j]).value.1.nonce
  {
    hide Next;
    StepFactors(states[k], steps[k], path);
    var channels := ChannelLivesARun(states, steps, k + 1, path);
    InstructionsGrow(steps, j, k, path);
    InstructionsGrow(steps, j, k + 1, path);
    InstructionsGrow(steps, k, k + 1, path);
    Runs.AtMostOnce(channels, Instructions(steps, k + 1, path));
  }

  /** End to end, a message is cleared only when every earlier nonce of its path has been verified, nilified
      or skipped. */
  lemma DeliveredWithoutGap(states: seq<State>, steps: seq<Step>, k: nat, path: Path, n: u64, guid: seq<byte>,
                            message: seq<byte>, m: int)
    requires Protocol.Run(states, steps) && k < |steps| && steps[k] == OnChannel(path, Clear(n, guid, message)) && 1 <= m <= n
    ensures exists i: Instruction :: i in Instructions(steps, k, path) && i.Commits() && i.nonce == m
  {
    hide Next;
    StepFactors(states[k], steps[k], path);
    var channels := ChannelLivesARun(states, steps, k + 1, path);
    var instrs := Instructions(steps, k + 1, path);
    InstructionsGrow(steps, k, k + 1, path);
    var last := |Instructions(steps, k, path)|;
    Runs.ClearedWithoutGap(channels, instrs, last, m);
    var i :| 0 <= i < last && instrs[i].Commits() && instrs[i].nonce == m;
    assert instrs[i] == Instructions(steps, k, path)[i];
  }

  // ---------- configs and libraries, read off the history ----------

  /** The default that was set last for a remote endpoint. */
  ghost function DefaultAfter(steps: seq<Step>, k: nat, eid: u32): Option<UlnConfig>
    requires k <= |steps|
  {
    if k == 0 then None
    else if steps[k - 1].SetDefaultConfig? && steps[k - 1].eid == eid then Some(steps[k - 1].config)
    else DefaultAfter(steps, k - 1, eid)
  }

  /** The config that an OApp set last for its route; zero if it never did. */
  ghost function CustomAfter(steps: seq<Step>, k: nat, route: Libs.Route): UlnConfig
    requires k <= |steps|
  {
    if k == 0 then UlnConfig(0, 0, 0, 0, [], [])
    else if steps[k - 1].SetConfig? && steps[k - 1].route == route then steps[k - 1].config
    else CustomAfter(steps, k - 1, route)
  }

  function DefaultOf(s: State, eid: u32): Option<UlnConfig> {
    if eid in s.defaultConfigs then Some(s.defaultConfigs[eid]) else None
  }

  lemma DefaultStep(s: State, step: Step, eid: u32)
    requires Next(s, step).Ok?
    ensures DefaultOf(Next(s, step).value, eid)
            == if step.SetDefaultConfig? && step.eid == eid then Some(step.config) else DefaultOf(s, eid)
  {
    hide EndpointChannel.Step, Libs.Apply, CheckVerifiableSpec, ReceiveConfig, ShowAll, SetConfigSpec, SetDefaultConfigSpec;
    if step.SetDefaultConfig? {
      SettersAcceptExactly(step.config);
    }
  }

  lemma CustomStep(s: State, step: Step, route: Libs.Route)
    requires Next(s, step).Ok?
    ensures CustomConfig(Next(s, step).value, route)
            == if step.SetConfig? && step.route == route then step.config else CustomConfig(s, route)
  {
    hide EndpointChannel.Step, Libs.Apply, CheckVerifiableSpec, ReceiveConfig, ShowAll, SetConfigSpec, SetDefaultConfigSpec;
    if step.SetConfig? {
      SettersAcceptExactly(step.config);
    }
  }

  /** In every reachable state the config in force for a route is the resolution of the default set last for its
      remote endpoint and of the custom config that its OApp set last. */
  lemma {:induction false} ConfigInForce(states: seq<State>, steps: seq<Step>, k: nat, route: Libs.Route)
    requires Protocol.Run(states, steps) && k < |states|
    ensures var d := DefaultAfter(steps, k, route.eid);
            var inForce := ReceiveConfig(states[k], route);
            if d == None then inForce == Err(AccountNotInitialized)
            else inForce == Resolve(d.value, CustomAfter(steps, k, route))
  {
    DefaultInForce(states, steps, k, route.eid);
    CustomInForce(states, steps, k, route);
    hide Protocol.Run, Resolve, CustomConfig;
  }

  lemma NothingConfigured(s: State, route: Libs.Route)
    requires Protocol.Initial(s)
    ensures DefaultOf(s, route.eid) == None && CustomConfig(s, route) == UlnConfig(0, 0, 0, 0, [], [])
  {
  }

  lemma {:induction false} DefaultInForce(states: seq<State>, steps: seq<Step>, k: nat, eid: u32)
    requires Protocol.Run(states, steps) && k < |states|
    ensures DefaultOf(states[k], eid) == DefaultAfter(steps, k, eid)
  {
    hide Next, DefaultOf, Protocol.Initial;
    if k == 0 {
      NothingConfigured(states[0], Libs.Route([], eid));
    } else {
      DefaultInForce(states, steps, k - 1, eid);
      DefaultStep(states[k - 1], steps[k - 1], eid);
    }
  }

  lemma {:induction false} CustomInForce(states: seq<State>, steps: seq<Step>, k: nat, route: Libs.Route)
    requires Protocol.Run(states, steps) && k < |states|
    ensures CustomConfig(states[k], route) == CustomAfter(steps, k, route)
  {
    hide Next, CustomConfig, Protocol.Initial;
    if k == 0 {
      NothingConfigured(states[0], route);
    } else {
      CustomInForce(states, steps, k - 1, route);
      CustomStep(states[k - 1], steps[k - 1], route);
    }
  }

  ghost predicate Happened(steps: seq<Step>, k: nat, step: Step)
    requires k <= |steps|
  {
    exists j | 0 <= j < k :: steps[j] == step
  }

  lemma AccountsStep(s: State, step: Step, path: Path, route: Libs.Route)
    requires Next(s, step).Ok?
    ensures path in Next(s, step).value.channels <==> path in s.channels || step == InitNonce(path)
    ensures route in Next(s, step).value.customConfigs <==> route in s.customConfigs || step == InitConfig(route)
  {
    hide EndpointChannel.Step, Libs.Apply, CheckVerifiableSpec, ReceiveConfig, ShowAll, SetConfigSpec, SetDefaultConfigSpec;
  }

  /** A channel and a custom config exist exactly once they have been created. */
  lemma {:induction false} CreatedExactly(states: seq<State>, steps: seq<Step>, k: nat, path: Path, route: Libs.Route)
    requires Protocol.Run(states, steps) && k < |states|
    ensures path in states[k].channels <==> Happened(steps, k, InitNonce(path))
    ensures route in states[k].customConfigs <==> Happened(steps, k, InitConfig(route))
  {
    hide Next;
    if k > 0 {
      CreatedExactly(states, steps, k - 1, path, route);
      AccountsStep(states[k - 1], steps[k - 1], path, route);
    }
  }

  /** Which configuration steps are accepted, by the history: a channel and a custom config are created once; a
      custom config is stored if it is well-formed and resolves against the default set last. */
  lemma ConfigurationAccepted(states: seq<State>, steps: seq<Step>, k: nat, path: Path, route: Libs.Route,
                              config: UlnConfig)
    requires Protocol.Run(states, steps) && k < |states|
    ensures Next(states[k], InitNonce(path)).Ok? <==> !Happened(steps, k, InitNonce(path))
    ensures Next(states[k], InitConfig(route)).Ok? <==> !Happened(steps, k, InitConfig(route))
    ensures Next(states[k], Step.SetDefaultConfig(route.eid, config)).Ok? <==> SetDefaultConfigSpec(config).Ok?
    ensures Next(states[k], Step.SetConfig(route, config)).Ok? <==>
            && Happened(steps, k, InitConfig(route)) && SetConfigSpec(config).Ok?
            && DefaultAfter(steps, k, route.eid).Some? && Resolve(DefaultAfter(steps, k, route.eid).value, config).Ok?
  {
    CreatedExactly(states, steps, k, path, route);
    DefaultInForce(states, steps, k, route.eid);
    SettersAcceptExactly(config);
    hide Protocol.Run, Happened, DefaultAfter, Resolve, SetConfigSpec, SetDefaultConfigSpec, EndpointChannel.Step, Libs.Apply;
  }

  /** The changes of libraries among the first `k` steps. */
  ghost function Changes(steps: seq<Step>, k: nat): seq<Libs.Change>
    requires k <= |steps|
  {
    if k == 0 then []
    else Changes(steps, k - 1) + if steps[k - 1].ChangeLibraries? then [steps[k - 1].change] else []
  }

  lemma LibrariesStep(s: State, step: Step)
    requires Next(s, step).Ok?
    ensures if step.ChangeLibraries? then Libs.Apply(s.libraries, step.change) == Ok(Next(s, step).value.libraries)
            else Next(s, step).value.libraries == s.libraries
  {
    hide EndpointChannel.Step, Libs.Apply, CheckVerifiableSpec, ReceiveConfig, ShowAll, SetConfigSpec, SetDefaultConfigSpec;
  }

  /** The libraries of an endpoint live a run of their own, so everything proved about those runs, grace periods
      and timeouts included, holds end to end. */
  lemma {:induction false} LibrariesLiveARun(states: seq<State>, steps: seq<Step>, k: nat)
    returns (libraries: seq<Libs.Libraries>)
    requires Protocol.Run(states, steps) && k < |states|
    ensures Libs.Run(libraries, Changes(steps, k))
    ensures libraries[|libraries| - 1] == states[k].libraries
  {
    hide Next, Libs.Apply;
    if k == 0 {
      libraries := [states[0].libraries];
    } else {
      libraries := LibrariesLiveARun(states, steps, k - 1);
      LibrariesStep(states[k - 1], steps[k - 1]);
      if steps[k - 1].ChangeLibraries? {
        libraries := libraries + [states[k].libraries];
      }
    }
  }
}
