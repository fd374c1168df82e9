/**
  Small things every part of the model uses: optional values, sequences put together,
  and buffers that double.
 */
module Wrappers {
  datatype Option<+T> = None | Some(value: T)

  function Joined<T>(parts: seq<seq<T>>): seq<T> {
    if parts == [] then [] else Joined(parts[..|parts| - 1]) + parts[|parts| - 1]
  }

  /** A size that has been doubled some number of times. */
  function Doublings(size: nat, times: nat): nat {
    if times == 0 then size else 2 * Doublings(size, times - 1)
  }

  /** The size doubled until there is room for what is needed, and not once more. */
  ghost predicate DoubledTo(size: nat, need: nat, result: nat) {
    exists k: nat :: result == Doublings(size, k) && result >= need && (k > 0 ==> Doublings(size, k - 1) < need)
  }

  lemma DoubledBy(size: nat, need: nat, result: nat, times: nat)
    requires result == Doublings(size, times) && result >= need && (times > 0 ==> Doublings(size, times - 1) < need)
    ensures DoubledTo(size, need, result)
  {
  }

  lemma Grouped<T>(a: seq<T>, b: seq<T>, c: seq<T>)
    ensures (a + b) + c == a + (b + c)
  {
  }

  lemma JoinedNothing<T>(parts: seq<seq<T>>)
    requires parts == []
    ensures Joined(parts) == []
  {
  }

  lemma JoinedSnoc<T>(parts: seq<seq<T>>, part: seq<T>)
    ensures Joined(parts + [part]) == Joined(parts) + part
  {
    assert (parts + [part])[..|parts|] == parts;
  }

  lemma {:induction false} JoinedPrepends<T>(head: seq<T>, tail: seq<seq<T>>)
    ensures Joined([head] + tail) == head + Joined(tail)
    decreases |tail|
  {
    if tail == [] {
      assert [head] + tail == [] + [head];
      JoinedSnoc([], head);
      assert [] + head == head + Joined(tail);
    } else {
      var front, last := tail[..|tail| - 1], tail[|tail| - 1];
      assert [head] + tail == ([head] + front) + [last] && tail == front + [last];
      JoinedSnoc([head] + front, last);
      JoinedSnoc(front, last);
      JoinedPrepends(head, front);
      Grouped(head, Joined(front), last);
    }
  }
}
