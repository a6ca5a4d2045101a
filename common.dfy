/** Value types shared by the modules of the model: bytes, UTF-16 code units,
    and the Option / Result wrappers used for the source's error paths. */
module Common {

  /** One byte of a Uint8Array or of the WebAssembly linear memory. */
  newtype uint8 = x: int | 0 <= x < 256

  /** One UTF-16 code unit, the element of a JavaScript string; used where the
      code units themselves matter (the worker's command bytes). */
  newtype uint16 = x: int | 0 <= x < 65536

  datatype Option<+T> = None | Some(value: T)

  datatype Result<+T, +E> = Ok(value: T) | Err(error: E)

  /** JavaScript's Array.prototype.splice, as the array it leaves behind:
      `start` is clamped to the length, and so is the number of removed elements. */
  function Splice<T>(s: seq<T>, start: nat, deleteCount: nat, items: seq<T>): (r: seq<T>)
    ensures var st := if start <= |s| then start else |s|;
            var end := if st + deleteCount <= |s| then st + deleteCount else |s|;
            |r| == |s| - (end - st) + |items| && r[..st] == s[..st] && r[st..st + |items|] == items
  {
    var st := if start <= |s| then start else |s|;
    var end := if st + deleteCount <= |s| then st + deleteCount else |s|;
    s[..st] + items + s[end..]
  }

  /** The sequence without its element at index `i`. */
  function RemoveAt<T>(s: seq<T>, i: nat): (r: seq<T>)
    requires i < |s|
    ensures |r| == |s| - 1
    ensures forall j :: 0 <= j < i ==> r[j] == s[j]
    ensures forall j :: i <= j < |r| ==> r[j] == s[j + 1]
  {
    Splice(s, i, 1, [])
  }

  /** Moving the element at `from` to position `to`: splice it out, then splice it
      back in (`$splice: [[from, 1], [to, 0, s[from]]]`). */
  function Move<T>(s: seq<T>, from: nat, to: nat): (r: seq<T>)
    requires from < |s|
    ensures |r| == |s|
  {
    Splice(Splice(s, from, 1, []), to, 0, [s[from]])
  }

  /** Element by element: the moved element lands at `to`, the elements between
      the two positions shift by one towards `from`, the rest stay. */
  lemma MoveAt<T>(s: seq<T>, from: nat, to: nat, i: nat)
    requires from < |s| && to < |s| && i < |s|
    ensures Move(s, from, to)[i] ==
            if i == to then s[from]
            else if from < to && from <= i < to then s[i + 1]
            else if to < from && to < i <= from then s[i - 1]
            else s[i]
  {
    var t := Splice(s, from, 1, []);
    assert t == s[..from] + s[from + 1..];
    assert Move(s, from, to) == t[..to] + [s[from]] + t[to..];
  }

  /** Moving keeps the elements, with their multiplicities. */
  lemma MovePermutes<T>(s: seq<T>, from: nat, to: nat)
    requires from < |s| && to < |s|
    ensures multiset(Move(s, from, to)) == multiset(s)
  {
    var x := s[from];
    var t := Splice(s, from, 1, []);
    assert t == s[..from] + s[from + 1..];
    calc {
      multiset(s);
      { assert s == s[..from] + [x] + s[from + 1..]; }
      multiset(s[..from]) + multiset{x} + multiset(s[from + 1..]);
      multiset(t) + multiset{x};
      { assert t == t[..to] + t[to..]; }
      multiset(t[..to]) + multiset{x} + multiset(t[to..]);
      { assert Move(s, from, to) == t[..to] + [x] + t[to..]; }
      multiset(Move(s, from, to));
    }
  }

  /** Moving back undoes a move. */
  lemma MoveBack<T>(s: seq<T>, from: nat, to: nat)
    requires from < |s| && to < |s|
    ensures Move(Move(s, from, to), to, from) == s
  {
    var m := Move(s, from, to);
    MoveAt(s, from, to, to);
    forall i | 0 <= i < |s| ensures Move(m, to, from)[i] == s[i] {
      MoveAt(m, to, from, i);
      if i == from {
      } else if to < from && to <= i < from {
        MoveAt(s, from, to, i + 1);
      } else if from < to && from < i <= to {
        MoveAt(s, from, to, i - 1);
      } else {
        MoveAt(s, from, to, i);
      }
    }
  }
}
