/** The rising-edge solenoid handler of `solenoides/solenoides_osc.py`: a
    solenoid strikes only when the value it last received was exactly 0 and
    the new value is positive, for as many seconds as the new value says.
    The handler is stated over any pin table without repeated names;
    `Table` is the one the script defines. */
module SolenoidEdge {
  import opened Wrappers
  import opened Text
  import opened Osc
  import opened Gpio

  /** `solenoide_pines`. */
  const Table: PinTable := [
    ("solenoide_uno", 17),
    ("solenoide_dos", 18),
    ("solenoide_tres", 27),
    ("solenoide_cuatro", 21),
    ("solenoide_cinco", 13),
    ("solenoide_seis", 19),
    ("solenoide_siete", 26),
    ("solenoide_ocho", 4)]

  lemma TableNamesDistinct()
    ensures DistinctNames(Table)
  {
  }

  lemma TablePinsDistinct()
    ensures DistinctPins(Table)
  {
  }

  /** Eight solenoids, eight names, eight distinct pins, and each solenoid
      is found under its own name at its own pin. */
  lemma TableIsWellFormed()
    ensures |Table| == 8 && DistinctNames(Table) && DistinctPins(Table)
    ensures forall i :: 0 <= i < |Table| ==> PinOf(Table, Table[i].0) == Some(Table[i].1)
  {
    TableNamesDistinct();
    TablePinsDistinct();
    forall i | 0 <= i < |Table|
      ensures PinOf(Table, Table[i].0) == Some(Table[i].1)
    {
      PinOfItem(Table, i);
    }
  }

  /** `estados_anteriores`: the last value each solenoid received. */
  type Levels = map<string, real>

  predicate ValidLevels(t: PinTable, levels: Levels) {
    levels.Keys == NamesOf(t)
  }

  /** Every known solenoid starts at 0, so its first positive value strikes. */
  function InitialLevels(t: PinTable): (levels: Levels)
    ensures ValidLevels(t, levels)
    ensures forall name :: name in levels ==> levels[name] == 0.0
  {
    map name | name in NamesOf(t) :: 0.0
  }

  /** The levels after a message, and the strike it caused, if any. */
  datatype Outcome = Outcome(levels: Levels, strike: Option<Strike>)

  /** The value a message carries: `float(args[0])`. */
  function ValueOf(args: seq<Arg>): Option<real> {
    match FirstArg(args)
    case None => None
    case Some(arg) => ToReal(arg)
  }

  /** `manejar_solenoide(address, *args)`. The solenoid is the last "/"
      segment of the address; an unknown name or a missing or unreadable
      value changes nothing. Otherwise the value is recorded, and the
      solenoid strikes when the recorded value was 0 and the new one is
      positive. */
  function HandleMessage(t: PinTable, levels: Levels, address: string, args: seq<Arg>): (r: Outcome)
    requires ValidLevels(t, levels)
    ensures ValidLevels(t, r.levels)
    ensures LastSegment(address) !in NamesOf(t) || ValueOf(args).None? ==> r == Outcome(levels, None)
    ensures LastSegment(address) in NamesOf(t) && ValueOf(args).Some? ==>
              var name := LastSegment(address);
              var value := ValueOf(args).value;
              && r.levels == levels[name := value]
              && (r.strike.Some? <==> levels[name] == 0.0 && value > 0.0)
              && (r.strike.Some? ==> r.strike.value == Strike(PinOf(t, name).value, value))
  {
    var name := LastSegment(address);
    match PinOf(t, name)
    case None => Outcome(levels, None)
    case Some(pin) =>
      match ValueOf(args)
      case None => Outcome(levels, None)
      case Some(value) =>
        var strike := if levels[name] == 0.0 && value > 0.0 then Some(Strike(pin, value)) else None;
        Outcome(levels[name := value], strike)
  }

  /** A message to another solenoid leaves this one's recorded value alone. */
  lemma OtherNamesUntouched(t: PinTable, levels: Levels, address: string, args: seq<Arg>, other: string)
    requires ValidLevels(t, levels) && other in levels && other != LastSegment(address)
    ensures HandleMessage(t, levels, address, args).levels[other] == levels[other]
  {
  }

  /** Of two consecutive positive values handled one after the other, the
      second never strikes. */
  lemma HeldValueStrikesOnce(t: PinTable, levels: Levels, address: string, a: seq<Arg>, b: seq<Arg>)
    requires ValidLevels(t, levels)
    requires ValueOf(a).Some? && ValueOf(a).value > 0.0
    requires ValueOf(b).Some? && ValueOf(b).value > 0.0
    ensures HandleMessage(t, HandleMessage(t, levels, address, a).levels, address, b).strike.None?
  {
  }

  /** Only an exact 0 re-arms: with messages handled one after another, a
      negative value after a positive one does not strike, and neither does
      the positive value after it. */
  lemma NegativeDoesNotRearm(t: PinTable, levels: Levels, address: string, neg: seq<Arg>, pos: seq<Arg>)
    requires ValidLevels(t, levels) && LastSegment(address) in levels
    requires levels[LastSegment(address)] > 0.0
    requires ValueOf(neg).Some? && ValueOf(neg).value < 0.0
    requires ValueOf(pos).Some? && ValueOf(pos).value > 0.0
    ensures HandleMessage(t, levels, address, neg).strike.None?
    ensures HandleMessage(t, HandleMessage(t, levels, address, neg).levels, address, pos).strike.None?
  {
  }

  /** A 0 re-arms: after it, the next positive value strikes. */
  lemma ZeroRearms(t: PinTable, levels: Levels, address: string, zero: seq<Arg>, pos: seq<Arg>)
    requires ValidLevels(t, levels) && LastSegment(address) in levels
    requires ValueOf(zero) == Some(0.0)
    requires ValueOf(pos).Some? && ValueOf(pos).value > 0.0
    ensures HandleMessage(t, HandleMessage(t, levels, address, zero).levels, address, pos).strike
         == Some(Strike(PinOf(t, LastSegment(address)).value, ValueOf(pos).value))
  {
  }

  datatype Message = Message(address: string, args: seq<Arg>)

  /** The levels after a sequence of messages, each handled to completion
      before the next, and the strikes they caused, in order. */
  function Run(t: PinTable, levels: Levels, msgs: seq<Message>): (r: (Levels, seq<Strike>))
    requires ValidLevels(t, levels)
    ensures ValidLevels(t, r.0)
    ensures |r.1| <= |msgs|
    decreases |msgs|
  {
    if msgs == [] then (levels, [])
    else
      var o := HandleMessage(t, levels, msgs[0].address, msgs[0].args);
      var rest := Run(t, o.levels, msgs[1..]);
      (rest.0, (if o.strike.Some? then [o.strike.value] else []) + rest.1)
  }

  /** The message carries a positive value for solenoid `name`. */
  predicate PositiveFor(m: Message, name: string) {
    LastSegment(m.address) == name && ValueOf(m.args).Some? && ValueOf(m.args).value > 0.0
  }

  /** A solenoid at rest that receives a run of positive values, handled
      one after another, strikes exactly once, at the first of them, for
      that value's duration. */
  lemma {:induction false} PositiveRunStrikesOnce(t: PinTable, levels: Levels, name: string,
                                                  first: Message, later: seq<Message>)
    requires ValidLevels(t, levels) && name in levels && levels[name] == 0.0
    requires PositiveFor(first, name)
    requires forall i :: 0 <= i < |later| ==> PositiveFor(later[i], name)
    ensures Run(t, levels, [first] + later).1 == [Strike(PinOf(t, name).value, ValueOf(first.args).value)]
  {
    var msgs := [first] + later;
    assert msgs[0] == first && msgs[1..] == later;
    var o := HandleMessage(t, levels, first.address, first.args);
    HeldPositiveStrikesNone(t, o.levels, name, later);
  }

  /** While a solenoid holds a positive value, further positive values
      handled one after another do not strike. */
  lemma {:induction false} HeldPositiveStrikesNone(t: PinTable, levels: Levels, name: string, msgs: seq<Message>)
    requires ValidLevels(t, levels) && name in levels && levels[name] > 0.0
    requires forall i :: 0 <= i < |msgs| ==> PositiveFor(msgs[i], name)
    ensures Run(t, levels, msgs).1 == []
    decreases |msgs|
  {
    if msgs != [] {
      var o := HandleMessage(t, levels, msgs[0].address, msgs[0].args);
      assert PositiveFor(msgs[0], name);
      HeldPositiveStrikesNone(t, o.levels, name, msgs[1..]);
    }
  }
}
