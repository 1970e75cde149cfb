/** Go's buffered `chan`, as used for log messages: a bounded FIFO that can be closed. */
module Channels {
  import opened Common

  /** How a send ended: enqueued, refused because the buffer is full, or refused because the
      channel is closed (in Go the latter panics; here nothing is enqueued). */
  datatype SendResult = Sent | Full | Closed

  /** The buffer after offering `m` once. */
  function Offered<T>(buf: seq<T>, m: T, capacity: nat, closed: bool): seq<T>
  {
    if !closed && |buf| < capacity then buf + [m] else buf
  }

  /** The buffer after offering every message of `msgs` in order, dropping those that do not fit:
      the messages that fit are the leading ones, and nothing arrives on a closed channel. */
  function Delivered<T>(buf: seq<T>, msgs: seq<T>, capacity: nat, closed: bool): (r: seq<T>)
    requires |buf| <= capacity
    ensures |r| <= capacity
    ensures closed ==> r == buf
    ensures !closed ==> r == buf + msgs[..Fitting(|buf|, |msgs|, capacity)]
    decreases |msgs|
  {
    if msgs == [] then buf
    else
      var next := Offered(buf, msgs[0], capacity, closed);
      var r := Delivered(next, msgs[1..], capacity, closed);
      assert !closed && |buf| < capacity ==>
        msgs[..Fitting(|buf|, |msgs|, capacity)] == [msgs[0]] + msgs[1..][..Fitting(|next|, |msgs| - 1, capacity)];
      r
  }

  /** How many of `count` messages fit behind `used` queued ones. */
  function Fitting(used: nat, count: nat, capacity: nat): (k: nat)
    requires used <= capacity
    ensures k <= count && used + k <= capacity
    ensures k == count || used + k == capacity
  {
    if count <= capacity - used then count else capacity - used
  }

  lemma {:induction false} DeliveredConcat<T>(buf: seq<T>, a: seq<T>, b: seq<T>, capacity: nat, closed: bool)
    requires |buf| <= capacity
    ensures Delivered(buf, a + b, capacity, closed)
         == Delivered(Delivered(buf, a, capacity, closed), b, capacity, closed)
    decreases |a|
  {
    if a != [] {
      assert (a + b)[0] == a[0] && (a + b)[1..] == a[1..] + b;
      DeliveredConcat(Offered(buf, a[0], capacity, closed), a[1..], b, capacity, closed);
    } else {
      assert a + b == b;
    }
  }

  class Channel<T> {
    /** Messages sent and not yet received, oldest first. */
    var buf: seq<T>
    const capacity: nat
    var closed: bool

    ghost predicate Valid()
      reads this
    {
      |buf| <= capacity
    }

    /** `make(chan T, capacity)`. */
    constructor (capacity: nat)
      ensures Valid() && this.capacity == capacity && buf == [] && !closed
    {
      this.capacity := capacity;
      buf := [];
      closed := false;
    }

    /** A send: `select { case ch <- m: default: }` drops a message that does not fit; a plain
        `ch <- m` would wait for the receiver instead, which a sequential model reports as Full. */
    method Offer(m: T) returns (r: SendResult)
      requires Valid()
      modifies this`buf
      ensures Valid()
      ensures r == (if closed then Closed else if |old(buf)| < capacity then Sent else Full)
      ensures buf == Offered(old(buf), m, capacity, closed)
    {
      if closed {
        r := Closed;
      } else if |buf| < capacity {
        buf := buf + [m];
        r := Sent;
      } else {
        r := Full;
      }
    }

    /** One receive: takes the oldest message, or none when the buffer is empty. */
    method Receive() returns (m: Option<T>)
      requires Valid()
      modifies this`buf
      ensures Valid()
      ensures old(buf) == [] ==> m == None && buf == []
      ensures old(buf) != [] ==> m == Some(old(buf)[0]) && buf == old(buf)[1..]
    {
      if buf == [] {
        m := None;
      } else {
        m := Some(buf[0]);
        buf := buf[1..];
      }
    }

    /** `close(ch)`; closing twice panics in Go, so callers close once. */
    method Close()
      requires !closed
      modifies this`closed
      ensures closed
    {
      closed := true;
    }
  }
}
