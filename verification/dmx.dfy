/** The DMX controller of `dmx.py`: a 512-slot channel buffer written by OSC
    messages whose address ends in "dmxN", sent to the USB interface after
    every message. The device itself is abstract: each send reports an
    outcome instead of talking to USB. */
module Dmx {
  import opened Wrappers
  import opened Text
  import opened Osc

  const Channels := 512
  const MaxLevel := 255

  /** A channel buffer as the controller keeps it: 512 levels in 0..255. */
  predicate ValidBuffer(cv: seq<int>) {
    |cv| == Channels && forall i :: 0 <= i < |cv| ==> 0 <= cv[i] <= MaxLevel
  }

  /** `max(0, min(255, value))`. */
  function Clamp(v: int): (r: int)
    ensures 0 <= r <= MaxLevel
    ensures 0 <= v <= MaxLevel ==> r == v
    ensures v < 0 ==> r == 0
    ensures v > MaxLevel ==> r == MaxLevel
  {
    var low := if MaxLevel < v then MaxLevel else v;
    if 0 > low then 0 else low
  }

  /** `[0 for _ in range(512)]`: the initial buffer and the one `reset`
      leaves. */
  function Zeros(): (cv: seq<int>)
    ensures ValidBuffer(cv)
    ensures forall i :: 0 <= i < |cv| ==> cv[i] == 0
  {
    seq(Channels, _ => 0)
  }

  /** `set_channel_value(channel, value)`: an in-range channel takes the
      clamped value; any other channel, and every channel when `ch` is out of
      range, keeps its level. */
  function SetChannelValue(cv: seq<int>, ch: int, v: int): (r: seq<int>)
    requires |cv| == Channels
    ensures |r| == Channels
    ensures 0 <= ch < Channels ==> r[ch] == Clamp(v)
    ensures forall i :: 0 <= i < Channels && i != ch ==> r[i] == cv[i]
    ensures !(0 <= ch < Channels) ==> r == cv
    ensures ValidBuffer(cv) ==> ValidBuffer(r)
  {
    if 0 <= ch < Channels then cv[ch := Clamp(v)] else cv
  }

  /** The zero-based channel an OSC address names: its last "/" segment must
      be "dmx" followed by one or more digits N, which name channel N-1. */
  function ChannelOf(address: string): (r: Option<int>)
    ensures r.Some? ==> r.value >= -1
    ensures r.Some? ==> "dmx" <= LastSegment(address)
    ensures r.Some? <==> var seg := LastSegment(address);
      |seg| >= 3 && seg[..3] == "dmx" && IsDigits(seg[3..])
  {
    var seg := LastSegment(address);
    if |seg| >= 3 && seg[..3] == "dmx" && IsDigits(seg[3..]) then
      Some(DigitsValue(seg[3..]) - 1)
    else
      None
  }

  /** "dmx" and digits after the last "/" name the channel one below the
      digits' value, whatever precedes that "/". */
  lemma ChannelOfDigits(prefix: string, digits: string)
    requires IsDigits(digits)
    ensures ChannelOf(prefix + "/dmx" + digits) == Some(DigitsValue(digits) - 1)
  {
    var seg := "dmx" + digits;
    assert forall i :: 3 <= i < |seg| ==> seg[i] == digits[i - 3];
    assert prefix + "/dmx" + digits == prefix + "/" + seg;
    LastSegmentAfterSlash(prefix, seg);
    assert seg[..3] == "dmx" && seg[3..] == digits;
  }

  /** "dmxN" after the last "/" names channel N-1, whatever precedes it. */
  lemma ChannelOfDmxN(prefix: string, n: nat)
    ensures ChannelOf(prefix + "/dmx" + ShowNat(n)) == Some(n - 1)
  {
    ChannelOfDigits(prefix, ShowNat(n));
    ShowNatRoundTrip(n);
  }

  /** Leading zeros are read away: "dmx007" names the same channel as
      "dmx7". */
  lemma ChannelIgnoresLeadingZeros(prefix: string, z: string, n: nat)
    requires forall i :: 0 <= i < |z| ==> z[i] == '0'
    ensures ChannelOf(prefix + "/dmx" + z + ShowNat(n)) == Some(n - 1)
  {
    var digits := z + ShowNat(n);
    LeadingZeros(z, ShowNat(n));
    ChannelOfDigits(prefix, digits);
    assert prefix + "/dmx" + z + ShowNat(n) == prefix + "/dmx" + digits;
    ShowNatRoundTrip(n);
  }

  /** "dmx" followed, up to the end of the address, by anything that is not
      a run of digits (nothing at all, a sign, a letter) names no channel. */
  lemma ChannelOfNonDigits(prefix: string, t: string)
    requires '/' !in t && !IsDigits(t)
    ensures ChannelOf(prefix + "/dmx" + t).None?
  {
    var seg := "dmx" + t;
    assert forall i :: 3 <= i < |seg| ==> seg[i] == t[i - 3];
    assert '/' !in seg;
    assert prefix + "/dmx" + t == prefix + "/" + seg;
    LastSegmentAfterSlash(prefix, seg);
    assert seg[3..] == t;
  }

  /** An address whose last segment does not start with "dmx" names no
      channel. */
  lemma ChannelOfOther(address: string)
    requires !("dmx" <= LastSegment(address))
    ensures ChannelOf(address).None?
  {
  }

  /** What a send to the interface did: delivered, a USB error (the
      controller reconnects and keeps its buffer), or a `ValueError`, after
      which the controller resets, zeroing every channel. */
  datatype SendOutcome = Delivered | UsbError | ValueRejected

  /** `send_dmx` as far as the buffer is concerned. */
  function SendDmx(cv: seq<int>, outcome: SendOutcome): (r: seq<int>)
    ensures outcome == ValueRejected ==> r == Zeros()
    ensures outcome != ValueRejected ==> r == cv
  {
    match outcome
    case ValueRejected => Reset()
    case _ => cv
  }

  /** `reset`: every channel back to 0. */
  function Reset(): (r: seq<int>)
    ensures ValidBuffer(r)
    ensures forall i :: 0 <= i < Channels ==> r[i] == 0
  {
    Zeros()
  }

  /** `update_from_osc(address, *args)`: an address naming a channel and a
      first argument `int()` accepts set the channel and send the buffer;
      anything else leaves the buffer as it was and sends nothing. */
  function UpdateFromOsc(cv: seq<int>, address: string, args: seq<Arg>, outcome: SendOutcome): (r: seq<int>)
    requires |cv| == Channels
    ensures |r| == Channels
    ensures ChannelOf(address).None? ==> r == cv
    ensures FirstArg(args).None? || ToInt(FirstArg(args).value).None? ==> r == cv
    ensures ChannelOf(address).Some? && FirstArg(args).Some? && ToInt(FirstArg(args).value).Some? ==>
              r == SendDmx(SetChannelValue(cv, ChannelOf(address).value, ToInt(FirstArg(args).value).value), outcome)
    ensures ValidBuffer(cv) ==> ValidBuffer(r)
  {
    match ChannelOf(address)
    case None => cv
    case Some(channel) =>
      match FirstArg(args)
      case None => cv
      case Some(arg) =>
        match ToInt(arg)
        case None => cv
        case Some(value) => SendDmx(SetChannelValue(cv, channel, value), outcome)
  }

  /** A message to "…/dmxN" with an integer argument that is delivered sets
      channel N-1 to the clamped value and nothing else. */
  lemma OscWritesChannel(cv: seq<int>, prefix: string, n: nat, v: int, rest: seq<Arg>)
    requires |cv| == Channels
    ensures UpdateFromOsc(cv, prefix + "/dmx" + ShowNat(n), [IntArg(v)] + rest, Delivered)
         == SetChannelValue(cv, n - 1, v)
  {
    ChannelOfDmxN(prefix, n);
  }

  /** "dmx0" and "dmxN" with N > 512 name channels outside the buffer: the
      message changes nothing unless the send itself resets the buffer. */
  lemma OscOutOfRange(cv: seq<int>, prefix: string, n: nat, args: seq<Arg>, outcome: SendOutcome)
    requires |cv| == Channels
    requires n == 0 || n > Channels
    requires outcome != ValueRejected
    ensures UpdateFromOsc(cv, prefix + "/dmx" + ShowNat(n), args, outcome) == cv
  {
    ChannelOfDmxN(prefix, n);
  }

  /** Anything that happens to the controller. */
  datatype Event =
    | Write(channel: int, value: int)
    | Message(address: string, args: seq<Arg>, outcome: SendOutcome)
    | ResetAll

  function Apply(cv: seq<int>, e: Event): (r: seq<int>)
    requires |cv| == Channels
    ensures |r| == Channels
  {
    match e
    case Write(ch, v) => SetChannelValue(cv, ch, v)
    case Message(address, args, outcome) => UpdateFromOsc(cv, address, args, outcome)
    case ResetAll => Reset()
  }

  function Run(cv: seq<int>, events: seq<Event>): (r: seq<int>)
    requires |cv| == Channels
    ensures |r| == Channels
    decreases |events|
  {
    if events == [] then cv else Run(Apply(cv, events[0]), events[1..])
  }

  /** Every level stays in 0..255 and the buffer keeps its 512 channels,
      whatever writes, messages and resets happen. */
  lemma {:induction false} RunKeepsValid(cv: seq<int>, events: seq<Event>)
    requires ValidBuffer(cv)
    ensures ValidBuffer(Run(cv, events))
    decreases |events|
  {
    if events != [] {
      RunKeepsValid(Apply(cv, events[0]), events[1..]);
    }
  }
}
