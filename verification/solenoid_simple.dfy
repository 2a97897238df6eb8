/** The stateless solenoid handler of the top-level `solenoides_osc.py`: a
    known solenoid with a positive duration strikes for that duration,
    every time. The handler is stated over any pin table; `Table` is the
    one the script defines. */
module SolenoidSimple {
  import opened Wrappers
  import opened Text
  import opened Osc
  import opened Gpio

  /** `solenoide_pines`. */
  const Table: PinTable := [
    ("manzana", 18),
    ("platano", 23),
    ("pera", 24),
    ("uva", 12),
    ("kiwi", 13),
    ("mango", 19),
    ("melon", 26)]

  lemma TableNamesDistinct()
    ensures DistinctNames(Table)
  {
  }

  lemma TablePinsDistinct()
    ensures DistinctPins(Table)
  {
  }

  /** Seven solenoids, seven names, seven distinct pins, and each solenoid
      is found under its own name at its own pin. */
  lemma TableIsWellFormed()
    ensures |Table| == 7 && DistinctNames(Table) && DistinctPins(Table)
    ensures forall i :: 0 <= i < |Table| ==> PinOf(Table, Table[i].0) == Some(Table[i].1)
  {
    TableNamesDistinct();
    TablePinsDistinct();
    forall i | 0 <= i < |Table|
      ensures PinOf(Table, Table[i].0) == Some(Table[i].1)
    {
      PinOfItem(Table, i);
    }
  }

  /** `float(args[0])`. */
  function DurationOf(args: seq<Arg>): Option<real> {
    match FirstArg(args)
    case None => None
    case Some(arg) => ToReal(arg)
  }

  /** `manejar_solenoide(address, *args)`: a strike exactly when the last "/"
      segment names a solenoid and the first argument reads as a positive
      number of seconds. */
  function HandleMessage(t: PinTable, address: string, args: seq<Arg>): (r: Option<Strike>)
    ensures r.Some? <==>
              LastSegment(address) in NamesOf(t) && DurationOf(args).Some? && DurationOf(args).value > 0.0
    ensures r.Some? ==> r.value == Strike(PinOf(t, LastSegment(address)).value, DurationOf(args).value)
  {
    var name := LastSegment(address);
    match PinOf(t, name)
    case None => None
    case Some(pin) =>
      match DurationOf(args)
      case None => None
      case Some(duracion) => if duracion <= 0.0 then None else Some(Strike(pin, duracion))
  }

  datatype Message = Message(address: string, args: seq<Arg>)

  /** The strikes of a sequence of messages, in order. */
  function Run(t: PinTable, msgs: seq<Message>): (r: seq<Strike>)
    ensures |r| <= |msgs|
    decreases |msgs|
  {
    if msgs == [] then []
    else
      var s := HandleMessage(t, msgs[0].address, msgs[0].args);
      (if s.Some? then [s.value] else []) + Run(t, msgs[1..])
  }

  /** The handler keeps no state: the strikes of two batches of messages are
      the strikes of each batch on its own, whatever came before. */
  lemma {:induction false} Stateless(t: PinTable, a: seq<Message>, b: seq<Message>)
    ensures Run(t, a + b) == Run(t, a) + Run(t, b)
    decreases |a|
  {
    if a == [] {
      assert a + b == b;
    } else {
      var s := HandleMessage(t, a[0].address, a[0].args);
      var head: seq<Strike> := if s.Some? then [s.value] else [];
      assert (a + b)[0] == a[0];
      assert (a + b)[1..] == a[1..] + b;
      assert Run(t, a + b) == head + Run(t, a[1..] + b);
      Stateless(t, a[1..], b);
      assert Run(t, a) == head + Run(t, a[1..]);
      assert head + (Run(t, a[1..]) + Run(t, b)) == (head + Run(t, a[1..])) + Run(t, b);
    }
  }

  /** Repeating a message that strikes strikes again. */
  lemma RepeatStrikesAgain(t: PinTable, m: Message)
    requires HandleMessage(t, m.address, m.args).Some?
    ensures Run(t, [m, m]) == [HandleMessage(t, m.address, m.args).value, HandleMessage(t, m.address, m.args).value]
  {
    assert [m, m][1..] == [m];
    assert [m][1..] == [];
  }
}
