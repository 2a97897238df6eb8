/** The DMX controller of `dmxWin.py`: OSC messages only update the buffer
    and mark channels as updated; a batch sender periodically sends the
    whole buffer when some channel is marked and clears the marks once the
    send succeeds. */
module DmxWin {
  import opened Wrappers
  import opened Text
  import opened Osc
  import opened Dmx

  /** The channel levels `cv` and the per-channel `cv_updated` flags. */
  datatype Controller = Controller(cv: seq<int>, updated: seq<bool>)

  predicate Valid(c: Controller) {
    ValidBuffer(c.cv) && |c.updated| == Channels
  }

  /** `any(self.cv_updated)`. */
  predicate AnyUpdated(c: Controller) {
    true in c.updated
  }

  /** The state `__init__` sets up: all levels 0, nothing marked. */
  function Init(): (c: Controller)
    ensures Valid(c) && !AnyUpdated(c)
    ensures forall i :: 0 <= i < Channels ==> c.cv[i] == 0
  {
    Controller(Zeros(), seq(Channels, _ => false))
  }

  /** `set_channel_value`: an in-range channel takes the clamped value and is
      marked; nothing else changes, and an out-of-range channel changes
      nothing at all. */
  function SetChannelValue(c: Controller, ch: int, v: int): (r: Controller)
    requires Valid(c)
    ensures Valid(r)
    ensures 0 <= ch < Channels ==> r.cv[ch] == Clamp(v) && r.updated[ch]
    ensures !(0 <= ch < Channels) ==> r == c
    ensures forall i :: 0 <= i < Channels && i != ch ==>
              r.cv[i] == c.cv[i] && r.updated[i] == c.updated[i]
  {
    if 0 <= ch < Channels then
      Controller(Dmx.SetChannelValue(c.cv, ch, v), c.updated[ch := true])
    else
      c
  }

  /** `update_from_osc`: the same address and argument rules as `dmx.py`,
      but the message only updates the state; nothing is sent. */
  function UpdateFromOsc(c: Controller, address: string, args: seq<Arg>): (r: Controller)
    requires Valid(c)
    ensures Valid(r)
    ensures ChannelOf(address).None? || FirstArg(args).None? || ToInt(FirstArg(args).value).None? ==> r == c
    ensures ChannelOf(address).Some? && FirstArg(args).Some? && ToInt(FirstArg(args).value).Some? ==>
              r == SetChannelValue(c, ChannelOf(address).value, ToInt(FirstArg(args).value).value)
  {
    match ChannelOf(address)
    case None => c
    case Some(channel) =>
      match FirstArg(args)
      case None => c
      case Some(arg) =>
        match ToInt(arg)
        case None => c
        case Some(value) => SetChannelValue(c, channel, value)
  }

  /** A message to "…/dmxN" with an integer argument sets and marks channel
      N-1, exactly as a direct write would. */
  lemma OscMarksChannel(c: Controller, prefix: string, n: nat, v: int, rest: seq<Arg>)
    requires Valid(c)
    ensures UpdateFromOsc(c, prefix + "/dmx" + ShowNat(n), [IntArg(v)] + rest)
         == SetChannelValue(c, n - 1, v)
  {
    ChannelOfDmxN(prefix, n);
  }

  /** One pass of `batch_send_dmx`: the state afterwards and the frame handed
      to the interface, if any. */
  datatype Step = Step(next: Controller, frame: Option<seq<int>>)

  /** One pass of the batch loop; `delivered` says whether the send
      succeeded. With no channel marked nothing is sent; otherwise the whole
      buffer is sent, and the marks are cleared only on success, so a failed
      frame is sent again on a later pass. */
  function BatchStep(c: Controller, delivered: bool): (r: Step)
    requires Valid(c)
    ensures Valid(r.next)
    ensures r.next.cv == c.cv
    ensures !AnyUpdated(c) ==> r == Step(c, None)
    ensures AnyUpdated(c) ==> r.frame == Some(c.cv)
    ensures AnyUpdated(c) && delivered ==> !AnyUpdated(r.next)
    ensures AnyUpdated(c) && !delivered ==> r.next == c
  {
    if AnyUpdated(c) then
      if delivered then Step(Controller(c.cv, seq(Channels, _ => false)), Some(c.cv))
      else Step(c, Some(c.cv))
    else
      Step(c, None)
  }

  /** A failed send is retried: the next pass sends the same frame. */
  lemma FailedFrameResent(c: Controller, delivered: bool)
    requires Valid(c) && AnyUpdated(c)
    ensures BatchStep(BatchStep(c, false).next, delivered).frame == BatchStep(c, false).frame
  {
  }

  /** The marks are sound: every channel whose level differs from what the
      device last received is marked. */
  predicate InSync(c: Controller, device: seq<int>)
    requires Valid(c)
  {
    |device| == Channels && forall i :: 0 <= i < Channels && !c.updated[i] ==> c.cv[i] == device[i]
  }

  /** With nothing marked, the device holds exactly the buffer. */
  lemma CleanMeansSynced(c: Controller, device: seq<int>)
    requires Valid(c) && InSync(c, device) && !AnyUpdated(c)
    ensures c.cv == device
  {
    forall i | 0 <= i < Channels
      ensures c.cv[i] == device[i]
    {
      assert c.updated[i] in c.updated;
    }
  }

  /** What the device holds after a pass. */
  function DeviceAfter(r: Step, delivered: bool, device: seq<int>): seq<int> {
    if r.frame.Some? && delivered then r.frame.value else device
  }

  /** Messages and batch passes, in the order they happen. */
  datatype Event =
    | Message(address: string, args: seq<Arg>)
    | Batch(delivered: bool)

  /** A run of events from `c` with `device` holding the last frame it got:
      the final controller and device. */
  function Run(c: Controller, device: seq<int>, events: seq<Event>): (r: (Controller, seq<int>))
    requires Valid(c)
    ensures Valid(r.0)
    decreases |events|
  {
    if events == [] then (c, device)
    else match events[0]
      case Message(address, args) => Run(UpdateFromOsc(c, address, args), device, events[1..])
      case Batch(delivered) =>
        var step := BatchStep(c, delivered);
        Run(step.next, DeviceAfter(step, delivered, device), events[1..])
  }

  /** No update is lost across any sequence of whole messages and whole
      batch passes, each taken as one step: the marks stay sound, so
      whenever nothing is marked the device holds the buffer. A write that
      lands inside a pass, between its send and its clearing of the marks,
      is not such a sequence. */
  lemma {:induction false} RunKeepsSync(c: Controller, device: seq<int>, events: seq<Event>)
    requires Valid(c) && InSync(c, device)
    ensures InSync(Run(c, device, events).0, Run(c, device, events).1)
    decreases |events|
  {
    if events != [] {
      match events[0]
      case Message(address, args) =>
        var c' := UpdateFromOsc(c, address, args);
        assert InSync(c', device);
        RunKeepsSync(c', device, events[1..]);
      case Batch(delivered) =>
        var step := BatchStep(c, delivered);
        var device' := DeviceAfter(step, delivered, device);
        assert InSync(step.next, device');
        RunKeepsSync(step.next, device', events[1..]);
    }
  }
}
