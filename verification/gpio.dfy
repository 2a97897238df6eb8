/** What the solenoid handlers do to the GPIO header, as data, and the pin
    tables that map solenoid names to BCM pin numbers. */
module Gpio {
  import opened Wrappers

  /** `GPIO.output(pin, HIGH)`, `time.sleep(seconds)`, `GPIO.output(pin, LOW)`. */
  datatype Strike = Strike(pin: int, seconds: real)

  /** A `solenoide_pines` dictionary, as its (name, pin) items in order. */
  type PinTable = seq<(string, int)>

  function NamesOf(t: PinTable): set<string> {
    set item | item in t :: item.0
  }

  /** No name appears twice, so the items form a dictionary. */
  predicate DistinctNames(t: PinTable) {
    forall i, j :: 0 <= i < j < |t| ==> t[i].0 != t[j].0
  }

  /** No two solenoids share a pin. */
  predicate DistinctPins(t: PinTable) {
    forall i, j :: 0 <= i < j < |t| ==> t[i].1 != t[j].1
  }

  /** `solenoide_pines[name]`, when `name` is a key. */
  function PinOf(t: PinTable, name: string): (r: Option<int>)
    ensures r.Some? <==> name in NamesOf(t)
    ensures r.Some? ==> (name, r.value) in t
  {
    if t == [] then None
    else if t[0].0 == name then Some(t[0].1)
    else
      var r := PinOf(t[1..], name);
      assert NamesOf(t) == {t[0].0} + NamesOf(t[1..]) by {
        assert forall item :: item in t <==> item == t[0] || item in t[1..];
      }
      r
  }

  /** In a table without repeated names, each item's pin is what lookup
      finds for its name. */
  lemma {:induction false} PinOfItem(t: PinTable, i: nat)
    requires DistinctNames(t) && i < |t|
    ensures PinOf(t, t[i].0) == Some(t[i].1)
  {
    if i > 0 {
      assert t[0].0 != t[i].0;
      assert DistinctNames(t[1..]) by {
        forall a, b | 0 <= a < b < |t[1..]|
          ensures t[1..][a].0 != t[1..][b].0
        {
          assert t[1..][a] == t[a + 1] && t[1..][b] == t[b + 1];
        }
      }
      assert t[1..][i - 1] == t[i];
      PinOfItem(t[1..], i - 1);
    }
  }
}
