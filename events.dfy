/** The canonical event model of the input recorder: one recorded action is a
    record `{"device", "time", "data"}` whose `time` is the delay since the
    previous recorded action, and whose `data` is a mouse click or a key event.
    The device tag of the stored record is the constructor of `Data`. */
module Events {

  datatype Option<T> = None | Some(value: T)

  /** The two keyboard actions the recorder stores. */
  const Down: string := "down"
  const Up: string := "up"

  /** The `data` part of a record. `OtherDevice` is a stored record whose
      device tag is neither "mouse" nor "keyboard"; the recorder never writes
      one, but a loaded file may hold one and replay must then do something. */
  datatype Data =
    | Mouse(button: string, pressed: bool, x: int, y: int)
    | Keyboard(key: int, action: string)
    | OtherDevice(device: string)

  /** One stored action: `time` seconds after the previous one, do `data`. */
  datatype Record = Record(time: real, data: Data)

  /** The sum of the delays of a timeline, i.e. how long it took to record. */
  function SumTimes(rs: seq<Record>): real
  {
    if rs == [] then 0.0 else rs[0].time + SumTimes(rs[1..])
  }

  predicate AllNonNegative(rs: seq<Record>)
  {
    forall i :: 0 <= i < |rs| ==> rs[i].time >= 0.0
  }

  /** Appending a record adds its delay to the total. */
  lemma {:induction false} SumTimesAppend(rs: seq<Record>, r: Record)
    ensures SumTimes(rs + [r]) == SumTimes(rs) + r.time
  {
    if rs == [] {
      assert rs + [r] == [r];
    } else {
      assert (rs + [r])[1..] == rs[1..] + [r];
      SumTimesAppend(rs[1..], r);
    }
  }

  /** A timeline of non-negative delays has a non-negative total. */
  lemma {:induction false} SumTimesNonNegative(rs: seq<Record>)
    requires AllNonNegative(rs)
    ensures SumTimes(rs) >= 0.0
  {
    if rs != [] {
      assert AllNonNegative(rs[1..]) by {
        forall i | 0 <= i < |rs[1..]| ensures rs[1..][i].time >= 0.0 {
          assert rs[1..][i] == rs[i + 1];
        }
      }
      SumTimesNonNegative(rs[1..]);
    }
  }

  /** What the key callbacks learn about a key by probing its attributes:
      whether it is the Esc key, the virtual-key code under `key.value.vk`
      (a named key) and the one under `key.vk` (a key code); `None` where the
      attribute is missing. */
  datatype Key = Key(isEsc: bool, valueVk: Option<int>, vk: Option<int>)

  /** The virtual-key code a key callback records: `key.value.vk` when
      present, otherwise `key.vk`, and nothing when the key has neither. */
  function KeyCode(k: Key): (r: Option<int>)
    ensures r.None? <==> k.valueVk.None? && k.vk.None?
    ensures k.valueVk.Some? ==> r == k.valueVk
    ensures k.valueVk.None? ==> r == k.vk
  {
    match k.valueVk
    case Some(code) => Some(code)
    case None => k.vk
  }
}
