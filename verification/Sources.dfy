/** The two sources: a list that is handed out front first, and a bounded 64-bit counter. */
module Sources {
  import opened EndOrErrors

  /** What a source passes to the callback of one request. */
  datatype Response<T> = Response(done: Done, value: T)

  /** `T` has no default value here; `blank` stands for `T()`. */
  function ValuesReply<T>(values: seq<T>, abort: Abort, blank: T): (seq<T>, Response<T>) {
    if abort.Truthy() then (values, Response(abort, blank))
    else if values == [] then (values, Response(End, blank))
    else (values[1..], Response(False, values[0]))
  }

  class Values<T> {
    var values: seq<T>
    const blank: T

    constructor (values: seq<T>, blank: T)
      ensures this.values == values && this.blank == blank
    {
      this.values, this.blank := values, blank;
    }

    /** One request. A missing callback is replaced by one that ignores the reply, so the list shrinks
        whether or not anyone looks at `r`. */
    method Source(abort: Abort) returns (r: Response<T>)
      modifies this
      ensures (values, r) == ValuesReply(old(values), abort, blank)
    {
      if abort.Truthy() {
        return Response(abort, blank);
      }
      if |values| == 0 {
        return Response(End, blank);
      }
      var t := values[0];
      values := values[1..];
      return Response(False, t);
    }
  }

  /** The replies to a series of requests, and the list that is left. */
  function ValuesReplies<T>(values: seq<T>, aborts: seq<Abort>, blank: T): seq<Response<T>>
    decreases |aborts|
  {
    if aborts == [] then [] else
      var (rest, reply) := ValuesReply(values, aborts[0], blank);
      [reply] + ValuesReplies(rest, aborts[1..], blank)
  }

  function ValuesLeft<T>(values: seq<T>, aborts: seq<Abort>, blank: T): seq<T>
    decreases |aborts|
  {
    if aborts == [] then values else
      ValuesLeft(ValuesReply(values, aborts[0], blank).0, aborts[1..], blank)
  }

  /** The values among the replies. */
  function Handed<T>(replies: seq<Response<T>>): seq<T> {
    if replies == [] then []
    else (if replies[0].done.Truthy() then [] else [replies[0].value]) + Handed(replies[1..])
  }

  /** Nothing is lost and nothing is invented: the values handed out, followed by those left, are the
      original list. */
  lemma {:induction false} ValuesConserved<T>(values: seq<T>, aborts: seq<Abort>, blank: T)
    ensures Handed(ValuesReplies(values, aborts, blank)) + ValuesLeft(values, aborts, blank) == values
    decreases |aborts|
  {
    if aborts != [] {
      var (rest, reply) := ValuesReply(values, aborts[0], blank);
      var replies := ValuesReplies(rest, aborts[1..], blank);
      ValuesConserved(rest, aborts[1..], blank);
      assert ([reply] + replies)[1..] == replies;
    }
  }

  /** An abort is answered with itself and consumes nothing; any other request gets a value exactly
      when the requests before it have left one. A reply that ends the stream carries no value. */
  lemma {:induction false} ValuesAnswer<T>(values: seq<T>, aborts: seq<Abort>, blank: T, k: nat)
    requires k < |aborts|
    ensures |ValuesReplies(values, aborts, blank)| == |aborts|
    ensures ValuesReplies(values, aborts, blank)[k].done ==
            if aborts[k].Truthy() then aborts[k]
            else if ValuesLeft(values, aborts[..k], blank) == [] then End else False
    ensures ValuesReplies(values, aborts, blank)[k].done.Truthy() ==>
              ValuesReplies(values, aborts, blank)[k].value == blank
    ensures aborts[k].Truthy() ==>
              ValuesLeft(values, aborts[..k + 1], blank) == ValuesLeft(values, aborts[..k], blank)
    decreases |aborts|
  {
    var rest := ValuesReply(values, aborts[0], blank).0;
    if k > 0 {
      ValuesAnswer(rest, aborts[1..], blank, k - 1);
      assert aborts[..k][1..] == aborts[1..][..k - 1];
      assert aborts[..k + 1][1..] == aborts[1..][..k];
    } else {
      assert aborts[..1][1..] == [];
      if |aborts| > 1 {
        ValuesAnswer(rest, aborts[1..], blank, 0);
      }
    }
  }

  /** Asked without aborting, the source delivers its list in order and then ends, again and again. */
  lemma {:induction false} ValuesStream<T>(values: seq<T>, aborts: seq<Abort>, blank: T)
    requires forall k :: 0 <= k < |aborts| ==> aborts[k] == False
    ensures |ValuesReplies(values, aborts, blank)| == |aborts|
    ensures forall k :: 0 <= k < |aborts| ==>
              ValuesReplies(values, aborts, blank)[k] ==
              if k < |values| then Response(False, values[k]) else Response(End, blank)
    decreases |aborts|
  {
    if aborts != [] {
      ValuesStream(ValuesReply(values, aborts[0], blank).0, aborts[1..], blank);
    }
  }

  // ----- Count -----

  const TWO_64: nat := 0x1_0000_0000_0000_0000

  type uint64 = x: nat | x < TWO_64

  const LARGEST: uint64 := TWO_64 - 1

  /** The value of `i` after `k` increments. */
  function Wrapped(i: nat, k: nat): uint64 {
    (i + k) % TWO_64
  }

  function CountReply(i: uint64, maximum: uint64, abort: Abort): (uint64, Response<uint64>) {
    if abort.Truthy() then (i, Response(abort, 0))
    else if i > maximum then (i, Response(End, 0))
    else (Wrapped(i, 1), Response(False, i))
  }

  class Count {
    var i: uint64
    const maximum: uint64

    constructor (m: uint64)
      ensures i == 0 && maximum == m
    {
      i, maximum := 0, m;
    }

    method Source(abort: Abort) returns (r: Response<uint64>)
      modifies this
      ensures (i, r) == CountReply(old(i), maximum, abort)
    {
      if abort.Truthy() {
        return Response(abort, 0);
      }
      if i > maximum {
        return Response(End, 0);
      }
      var v := i;
      i := Wrapped(i, 1);
      return Response(False, v);
    }
  }

  function CountReplies(i: uint64, maximum: uint64, aborts: seq<Abort>): seq<Response<uint64>>
    decreases |aborts|
  {
    if aborts == [] then [] else
      var (rest, reply) := CountReply(i, maximum, aborts[0]);
      [reply] + CountReplies(rest, maximum, aborts[1..])
  }

  function CountLeft(i: uint64, maximum: uint64, aborts: seq<Abort>): uint64
    decreases |aborts|
  {
    if aborts == [] then i else CountLeft(CountReply(i, maximum, aborts[0]).0, maximum, aborts[1..])
  }

  /** i, i + 1, ..., up to but not including `end`. */
  function Interval(i: uint64, end: uint64): seq<uint64>
    requires i <= end
  {
    seq(end - i, k requires 0 <= k < end - i => (i + k) as uint64)
  }

  /** Below the largest 64-bit number, whatever is requested: the counter stays within `maximum + 1`,
      and the values handed out are exactly those between its old and its new state. */
  lemma {:induction false} CountConserved(i: uint64, maximum: uint64, aborts: seq<Abort>)
    requires maximum < LARGEST && i <= maximum + 1
    ensures i <= CountLeft(i, maximum, aborts) <= maximum + 1
    ensures Handed(CountReplies(i, maximum, aborts)) == Interval(i, CountLeft(i, maximum, aborts))
    decreases |aborts|
  {
    if aborts != [] {
      var (rest, reply) := CountReply(i, maximum, aborts[0]);
      var replies := CountReplies(rest, maximum, aborts[1..]);
      CountConserved(rest, maximum, aborts[1..]);
      assert ([reply] + replies)[1..] == replies;
    }
  }

  /** An abort is answered with itself and moves nothing; any other request gets a value exactly when
      the requests before it have left the counter within `maximum`. A reply that ends the stream
      carries zero. */
  lemma {:induction false} CountAnswer(i: uint64, maximum: uint64, aborts: seq<Abort>, k: nat)
    requires k < |aborts|
    ensures |CountReplies(i, maximum, aborts)| == |aborts|
    ensures CountReplies(i, maximum, aborts)[k].done ==
            if aborts[k].Truthy() then aborts[k]
            else if CountLeft(i, maximum, aborts[..k]) > maximum then End else False
    ensures CountReplies(i, maximum, aborts)[k].done.Truthy() ==>
              CountReplies(i, maximum, aborts)[k].value == 0
    ensures aborts[k].Truthy() ==>
              CountLeft(i, maximum, aborts[..k + 1]) == CountLeft(i, maximum, aborts[..k])
    decreases |aborts|
  {
    var rest := CountReply(i, maximum, aborts[0]).0;
    if k > 0 {
      CountAnswer(rest, maximum, aborts[1..], k - 1);
      assert aborts[..k][1..] == aborts[1..][..k - 1];
      assert aborts[..k + 1][1..] == aborts[1..][..k];
    } else {
      assert aborts[..1][1..] == [];
      if |aborts| > 1 {
        CountAnswer(rest, maximum, aborts[1..], 0);
      }
    }
  }

  /** Asked without aborting, it delivers i, i + 1, ..., maximum and then ends. */
  lemma {:induction false} CountStream(i: uint64, maximum: uint64, aborts: seq<Abort>)
    requires maximum < LARGEST && i <= maximum + 1
    requires forall k :: 0 <= k < |aborts| ==> aborts[k] == False
    ensures |CountReplies(i, maximum, aborts)| == |aborts|
    ensures forall k :: 0 <= k < |aborts| ==>
              CountReplies(i, maximum, aborts)[k] ==
              if i + k <= maximum then Response(False, i + k) else Response(End, 0)
    decreases |aborts|
  {
    if aborts != [] {
      CountStream(CountReply(i, maximum, aborts[0]).0, maximum, aborts[1..]);
    }
  }

  /** At the largest 64-bit number the increment wraps around and the guard `i > maximum` never holds. */
  lemma {:induction false} CountWraps(i: uint64, aborts: seq<Abort>)
    requires forall k :: 0 <= k < |aborts| ==> aborts[k] == False
    ensures |CountReplies(i, LARGEST, aborts)| == |aborts|
    ensures forall k :: 0 <= k < |aborts| ==>
              CountReplies(i, LARGEST, aborts)[k] == Response(False, Wrapped(i, k))
    decreases |aborts|
  {
    if aborts != [] {
      var rest := CountReply(i, LARGEST, aborts[0]).0;
      CountWraps(rest, aborts[1..]);
      forall k | 0 < k < |aborts| ensures Wrapped(rest, k - 1) == Wrapped(i, k) {
        WrapStep(i, k - 1);
      }
    }
  }

  lemma WrapStep(i: uint64, k: nat)
    ensures Wrapped(Wrapped(i, 1), k) == Wrapped(i, k + 1)
  {
    if i + 1 == TWO_64 {
      assert (i + 1 + k) % TWO_64 == k % TWO_64;
    }
  }

  function Asking(n: nat): seq<Abort> {
    seq(n, _ => False)
  }

  /** The stream of a fresh counter ends if and only if `maximum` is below the largest 64-bit number. */
  lemma CountEndsExactly(maximum: uint64)
    ensures (exists n: nat, k: nat :: k < n && k < |CountReplies(0, maximum, Asking(n))|
                                      && CountReplies(0, maximum, Asking(n))[k].done.Truthy())
            <==> maximum < LARGEST
  {
    if maximum < LARGEST {
      var n: nat, k: nat := maximum + 2, maximum + 1;
      CountStream(0, maximum, Asking(n));
      assert CountReplies(0, maximum, Asking(n))[k].done.Truthy();
    } else {
      forall n: nat, k: nat | k < n
        ensures k < |CountReplies(0, maximum, Asking(n))| &&
                !CountReplies(0, maximum, Asking(n))[k].done.Truthy()
      {
        CountWraps(0, Asking(n));
      }
    }
  }
}
