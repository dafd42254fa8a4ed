/**
 * The fixed-capacity call stack of structs.go: a slice of `uint32` return
 * addresses of length `size` and the index `i` of the next free slot.
 */
module CallStack {
  import opened Base

  datatype Stack = Stack(data: seq<Word32>, i: nat, size: nat)

  /** The shape `init` establishes and every operation keeps: `0 <= i <= size`, `size` a `uint16`. */
  predicate Valid(s: Stack)
  {
    |s.data| == s.size && s.i <= s.size && s.size < 0x1_0000
  }

  function Depth(s: Stack): nat
  {
    s.i
  }

  /** The return addresses held, bottom first. */
  function Contents(s: Stack): seq<Word32>
    requires Valid(s)
  {
    s.data[..s.i]
  }

  /** `init(size)`: an empty stack of capacity `size`. */
  function Init(size: Word): (s: Stack)
    ensures Valid(s)
    ensures Depth(s) == 0 && s.size == size && Contents(s) == []
  {
    Stack(seq(size, _ => 0), 0, size)
  }

  /**
   * `push`: on a full stack the value is silently dropped; otherwise it goes
   * on top and the entries below are untouched.
   */
  function Push(s: Stack, val: Word32): (r: Stack)
    requires Valid(s)
    ensures Valid(r) && r.size == s.size
    ensures s.i == s.size ==> r == s
    ensures s.i < s.size ==> Contents(r) == Contents(s) + [val]
    ensures s.i < s.size ==> forall k :: 0 <= k < |s.data| && k != s.i ==> r.data[k] == s.data[k]
  {
    if s.i == s.size then s
    else Stack(s.data[s.i := val], s.i + 1, s.size)
  }

  /**
   * `pop`: the top entry and the stack without it. On an empty stack the
   * `uint16` index wraps to 65535 and indexing the slice panics; that is the
   * `None` result.
   */
  function Pop(s: Stack): (r: Option<(Stack, Word32)>)
    requires Valid(s)
    ensures r.None? <==> Depth(s) == 0
    ensures r.Some? ==> Valid(r.value.0) && r.value.0.size == s.size
    ensures r.Some? ==> Contents(s) == Contents(r.value.0) + [r.value.1]
    ensures r.Some? ==> r.value.0.data == s.data
  {
    if s.i == 0 then None
    else Some((Stack(s.data, s.i - 1, s.size), s.data[s.i - 1]))
  }

  /** Push followed by pop on a stack with room returns the value and the prior stack. */
  lemma PushPop(s: Stack, val: Word32)
    requires Valid(s) && s.i < s.size
    ensures Pop(Push(s, val)).Some?
    ensures Pop(Push(s, val)).value.1 == val
    ensures Contents(Pop(Push(s, val)).value.0) == Contents(s)
    ensures Depth(Pop(Push(s, val)).value.0) == Depth(s)
  {
    var p := Push(s, val);
    assert Contents(p) == Contents(s) + [val];
  }

  /** The stack test: push 15, push 42, pop gives 42, pop gives 15, and the stack is empty again. */
  lemma PushPushPopPop()
    ensures var s := Push(Push(Init(16), 15), 42);
            && Pop(s).Some? && Pop(s).value.1 == 42
            && Pop(Pop(s).value.0).Some? && Pop(Pop(s).value.0).value.1 == 15
            && Depth(Pop(Pop(s).value.0).value.0) == 0
  {
    var s0 := Init(16);
    var s1 := Push(s0, 15);
    var s2 := Push(s1, 42);
    assert Contents(s2) == [15, 42];
  }

  /** Pushing `vals` one after another, as a sequence of `push` calls does. */
  function PushAll(s: Stack, vals: seq<Word32>): (r: Stack)
    requires Valid(s)
    ensures Valid(r) && r.size == s.size
    decreases |vals|
  {
    if |vals| == 0 then s else PushAll(Push(s, vals[0]), vals[1..])
  }

  /**
   * Pushes up to the capacity all land, in order; every push beyond it is
   * dropped without changing what is stored.
   */
  lemma {:induction false} PushAllContents(s: Stack, vals: seq<Word32>)
    requires Valid(s)
    ensures Depth(s) + |vals| <= s.size ==> Contents(PushAll(s, vals)) == Contents(s) + vals
    ensures Depth(s) + |vals| > s.size ==>
      Depth(PushAll(s, vals)) == s.size &&
      Contents(PushAll(s, vals)) == Contents(s) + vals[..s.size - Depth(s)]
    decreases |vals|
  {
    if |vals| == 0 {
    } else if s.i == s.size {
      assert Push(s, vals[0]) == s;
      PushAllStuck(s, vals);
    } else {
      var s1 := Push(s, vals[0]);
      PushAllContents(s1, vals[1..]);
      assert vals == [vals[0]] + vals[1..];
      if Depth(s) + |vals| > s.size {
        assert vals[..s.size - Depth(s)] == [vals[0]] + vals[1..][..s.size - Depth(s1)];
      }
    }
  }

  /** Every push onto a full stack is dropped. */
  lemma {:induction false} PushAllStuck(s: Stack, vals: seq<Word32>)
    requires Valid(s) && s.i == s.size
    ensures PushAll(s, vals) == s
    decreases |vals|
  {
    if |vals| > 0 {
      PushAllStuck(Push(s, vals[0]), vals[1..]);
    }
  }

  /** Sixteen pushes fill an empty stack of capacity 16; a seventeenth leaves the sixteen unchanged. */
  lemma SeventeenthPushDropped(vals: seq<Word32>, extra: Word32)
    requires |vals| == 16
    ensures Contents(PushAll(Init(16), vals)) == vals
    ensures Push(PushAll(Init(16), vals), extra) == PushAll(Init(16), vals)
  {
    PushAllContents(Init(16), vals);
  }
}
