/** `RingBuffer`: an array with head, tail and size that stands for a bounded sequence. */
module RingBuffers {
  import opened Bytes
  import Numerals

  // ---------------------------------------------------------------------------
  // The bounded sequence
  // ---------------------------------------------------------------------------

  /** The last `n` items, or all of them. */
  function LastN<T>(s: seq<T>, n: nat): (r: seq<T>)
    ensures |r| == if |s| <= n then |s| else n
  {
    if |s| <= n then s else s[|s| - n..]
  }

  datatype Op<T> = PushBack(item: T) | PushFront(item: T) | PopFront | PopBack | Skip(len: nat) | Chop(len: nat) | Clear

  /** `push_front` has no room to grow into on a full buffer; everything else is always allowed. */
  predicate Allowed<T>(s: seq<T>, op: Op<T>, cap: nat) {
    op.PushFront? ==> |s| < cap
  }

  /** What an operation does to the bounded sequence: `push_back` on a full one drops exactly the oldest item. */
  function Abstract<T>(s: seq<T>, op: Op<T>, cap: nat): (r: seq<T>)
    requires cap > 0 && |s| <= cap && Allowed(s, op, cap)
    ensures |r| <= cap
  {
    match op
    case PushBack(x) => LastN(s + [x], cap)
    case PushFront(x) => [x] + s
    case PopFront => if s == [] then s else s[1..]
    case PopBack => if s == [] then s else s[..|s| - 1]
    case Skip(len) => if len >= |s| then [] else s[len..]
    case Chop(len) => if len >= |s| then [] else s[..|s| - len]
    case Clear => []
  }

  predicate AllowedRun<T>(s: seq<T>, ops: seq<Op<T>>, cap: nat)
    requires cap > 0 && |s| <= cap
    decreases |ops|
  {
    ops == [] || (Allowed(s, ops[0], cap) && AllowedRun(Abstract(s, ops[0], cap), ops[1..], cap))
  }

  function AbstractRun<T>(s: seq<T>, ops: seq<Op<T>>, cap: nat): (r: seq<T>)
    requires cap > 0 && |s| <= cap && AllowedRun(s, ops, cap)
    ensures |r| <= cap
    decreases |ops|
  {
    if ops == [] then s else AbstractRun(Abstract(s, ops[0], cap), ops[1..], cap)
  }

  function Pushes<T>(xs: seq<T>): seq<Op<T>> {
    seq(|xs|, i requires 0 <= i < |xs| => PushBack(xs[i]))
  }

  /** However many items go in at the back, what is left is the last `cap` of everything. */
  lemma {:induction false} PushesKeepLast<T>(s: seq<T>, xs: seq<T>, cap: nat)
    requires cap > 0 && |s| <= cap
    ensures AllowedRun(s, Pushes(xs), cap)
    ensures AbstractRun(s, Pushes(xs), cap) == LastN(s + xs, cap)
    decreases |xs|
  {
    if xs == [] {
      assert s + xs == s;
    } else {
      var s' := LastN(s + [xs[0]], cap);
      assert Pushes(xs)[1..] == Pushes(xs[1..]);
      PushesKeepLast(s', xs[1..], cap);
      LastNAppend(s + [xs[0]], xs[1..], cap);
      assert s + xs == s + [xs[0]] + xs[1..];
    }
  }

  /** What went in at one end comes out again at that end, and only there. */
  lemma PopsInvertPushes<T>(s: seq<T>, x: T, cap: nat)
    requires cap > 0 && |s| < cap
    ensures Abstract(s, PushBack(x), cap) == s + [x] && Abstract(s, PushFront(x), cap) == [x] + s
    ensures Abstract(s + [x], PopBack, cap) == s && Abstract([x] + s, PopFront, cap) == s
    ensures Abstract(s, Clear, cap) == []
    ensures Abstract([], PopFront, cap) == [] == Abstract<T>([], PopBack, cap)
  {
    assert ([x] + s)[1..] == s && (s + [x])[..|s|] == s;
  }

  function Repeated<T>(op: Op<T>, n: nat): seq<Op<T>> {
    if n == 0 then [] else [op] + Repeated(op, n - 1)
  }

  /** `skip` is that many `pop_front`, and `chop` that many `pop_back`, even past the end. */
  lemma {:induction false} SkipIsPops<T>(s: seq<T>, n: nat, cap: nat)
    requires cap > 0 && |s| <= cap
    ensures AllowedRun(s, Repeated(PopFront, n), cap) && AllowedRun(s, Repeated(PopBack, n), cap)
    ensures AbstractRun(s, Repeated(PopFront, n), cap) == Abstract(s, Skip(n), cap)
    ensures AbstractRun(s, Repeated(PopBack, n), cap) == Abstract(s, Chop(n), cap)
    decreases n
  {
    if n > 0 {
      assert Repeated<T>(PopFront, n)[1..] == Repeated(PopFront, n - 1);
      assert Repeated<T>(PopBack, n)[1..] == Repeated(PopBack, n - 1);
      SkipIsPops(Abstract(s, PopFront, cap), n - 1, cap);
      SkipIsPops(Abstract(s, PopBack, cap), n - 1, cap);
    }
  }

  lemma LastNAppend<T>(s: seq<T>, t: seq<T>, n: nat)
    ensures LastN(LastN(s, n) + t, n) == LastN(s + t, n)
  {
  }

  lemma LastNPush<T>(s: seq<T>, x: T, n: nat)
    requires |s| <= n && n > 0
    ensures LastN(s + [x], n) == if |s| < n then s + [x] else s[1..] + [x]
  {
  }

  lemma LastNStep<T>(s: seq<T>, i: nat, n: nat)
    requires i < |s|
    ensures LastN(LastN(s[..i], n) + [s[i]], n) == LastN(s[..i + 1], n)
  {
    LastNAppend(s[..i], [s[i]], n);
    assert s[..i + 1] == s[..i] + [s[i]];
  }

  // ---------------------------------------------------------------------------
  // Slots
  // ---------------------------------------------------------------------------

  /** The slot of the i-th item; `normalise` computes it as a remainder. */
  function Slot(head: nat, i: nat, cap: nat): nat
    requires cap > 0
  {
    if cap == 1 then 0 else if head + i < cap then head + i else head + i - cap
  }

  lemma SlotIsRemainder(head: nat, i: nat, cap: nat)
    requires cap > 0 && i <= cap && (cap >= 2 ==> head < cap)
    ensures (i + head) % cap == Slot(head, i, cap)
  {
    var n := i + head;
    if cap == 1 {
    } else if n < cap {
      Numerals.DivModUnique(0, n, cap);
    } else {
      Numerals.DivModUnique(1, n - cap, cap);
    }
  }

  class RingBuffer<T(0)> {
    var capacity: nat
    var store: array<T>
    var head: nat
    var tail: nat
    var size: nat

    /** The slots that hold an object, and whether one was ever destroyed, assigned or read where there was none. */
    ghost var live: set<nat>
    ghost var misused: bool

    /**
     The shape every operation keeps. The constructor starts with `head == 1`, which is inside the array only
     from capacity 2 on; with capacity 1 `head` runs freely and only the remainder in `operator[]` hides it.
     */
    ghost predicate Valid()
      reads this
    {
      && store.Length == capacity
      && size <= capacity
      && (capacity == 1 ==> tail == 0)
      && (capacity >= 2 ==> head < capacity && tail < capacity && Slot(tail, 1, capacity) == Slot(head, size, capacity))
    }

    /** Slot `k` holds an item of the contents. */
    predicate InUse(k: nat)
      reads this
    {
      k < capacity && (if capacity == 1 then 0 else if k >= head then k - head else k + capacity - head) < size
    }

    /** The slots in use are those of the items, and no others. */
    lemma ItemInUse(i: nat)
      requires Valid() && i < size
      ensures InUse((i + head) % capacity)
    {
      SlotIsRemainder(head, i, capacity);
    }

    lemma InUseIsItem(k: nat) returns (i: nat)
      requires Valid() && InUse(k)
      ensures i < size && (i + head) % capacity == k
    {
      i := if capacity == 1 then 0 else if k >= head then k - head else k + capacity - head;
      SlotIsRemainder(head, i, capacity);
    }

    /** Objects are where the contents are, and nowhere else. */
    ghost predicate Tidy()
      reads this
    {
      !misused && forall k: nat :: k in live <==> InUse(k)
    }

    /** Every item has its object, wherever else objects were left behind. */
    ghost predicate Sound()
      reads this
    {
      !misused && forall k: nat :: InUse(k) ==> k in live
    }

    ghost method Construct(k: nat)
      modifies this`live, this`misused
      ensures live == old(live) + {k} && misused == (old(misused) || k in old(live))
    {
      misused := misused || k in live;
      live := live + {k};
    }

    ghost method Destroy(k: nat)
      modifies this`live, this`misused
      ensures live == old(live) - {k} && misused == (old(misused) || k !in old(live))
    {
      misused := misused || k !in live;
      live := live - {k};
    }

    /** With capacity 1 the head can be outside the array, and then only `push_front` brings it back. */
    predicate Adrift()
      reads this
    {
      capacity == 1 && head >= 1
    }

    function Contents(): (s: seq<T>)
      requires Valid()
      reads this, store
      ensures |s| == size
      ensures forall i | 0 <= i < size :: s[i] == store[Slot(head, i, capacity)]
    {
      seq(size, i requires Valid() && 0 <= i < size reads this, store => store[Slot(head, i, capacity)])
    }

    constructor (capacity: nat)
      ensures Valid() && this.capacity == capacity && Contents() == []
      ensures head == 1 && fresh(store) && Tidy()
    {
      live, misused := {}, false;
      this.capacity := capacity;
      store := new T[capacity];
      head := 1;
      tail := 0;
      size := 0;
    }

    /**
     The copy constructor: the other buffer's bookkeeping first, then its items pushed one by one. Taking over the
     size makes the clearing before the pushes destroy items that the new array never held.
     */
    constructor Copy(other: RingBuffer<T>)
      requires other.Valid()
      ensures Valid() && capacity == other.capacity && Contents() == other.Contents() && fresh(store)
      ensures Tidy() <==> other.size == 0
    {
      live, misused := {}, false;
      capacity := other.capacity;
      store := new T[other.capacity];
      head := other.head;
      tail := other.tail;
      size := other.size;
      new;
      var _ := AssignInto(other.Contents());
    }

    /** The range constructor: a buffer just large enough for the items. */
    constructor FromRange(items: seq<T>)
      ensures Valid() && capacity == |items| && Contents() == items && fresh(store) && Tidy()
    {
      var tmp := new RingBuffer<T>(|items|);
      var _ := tmp.AssignInto(items);
      capacity, store, head, tail, size := tmp.capacity, tmp.store, tmp.head, tmp.tail, tmp.size;
      live, misused := tmp.live, tmp.misused;
    }

    // -- accessors ------------------------------------------------------------

    /** `front()` indexes with `head` itself: undefined exactly when `head` is outside the array. */
    method Front() returns (r: Outcome<T>)
      requires Valid()
      ensures r.Undefined? <==> head >= capacity
      ensures capacity >= 2 ==> r.Defined?
      ensures size > 0 && r.Defined? ==> r.value == Contents()[0]
    {
      if head >= capacity {
        return Undefined;
      }
      return Defined(store[head]);
    }

    method Back() returns (x: T)
      requires Valid() && size > 0
      ensures x == Contents()[size - 1]
    {
      x := store[tail];
    }

    /** `operator[]`. */
    method Index(n: nat) returns (x: T)
      requires Valid() && n < size
      ensures x == Contents()[n]
    {
      SlotIsRemainder(head, n, capacity);
      x := store[(n + head) % capacity];
    }

    /** `at()`: throws outside the contents, modelled as an undefined outcome. */
    method At(n: nat) returns (r: Outcome<T>)
      requires Valid()
      ensures r == if n < size then Defined(Contents()[n]) else Undefined
    {
      if n >= size {
        return Undefined;
      }
      var x := Index(n);
      return Defined(x);
    }

    // -- modifiers ------------------------------------------------------------

    function NextTail(): nat
      reads this
    {
      if tail + 1 == capacity then 0 else tail + 1
    }

    method DoClear()
      requires Valid()
      modifies this
      ensures Valid() && capacity == old(capacity) && store == old(store)
      ensures Contents() == [] && (Adrift() <==> capacity == 1)
      ensures old(Tidy()) ==> Tidy()
      ensures old(misused || (size > 0 && live == {})) ==> misused
    {
      assert size > 0 ==> InUse(if capacity == 1 then 0 else head);
      misused := misused || exists k: nat :: InUse(k) && k !in live;
      live := set k | k in live && !InUse(k);
      head := 1;
      tail := 0;
      size := 0;
    }

    /** `increment_head`: the front item leaves. */
    method IncrementHead()
      requires Valid() && size > 0
      modifies this
      ensures Valid() && capacity == old(capacity) && store == old(store) && tail == old(tail) && size == old(size) - 1
      ensures Contents() == old(Contents())[1..]
      ensures (old(Adrift()) ==> Adrift()) && live == old(live) && misused == old(misused)
      ensures capacity >= 2 ==> forall k: nat :: InUse(k) <==> old(InUse(k)) && k != old(head)
      ensures capacity == 1 ==> forall k: nat :: !InUse(k)
    {
      head := head + 1;
      size := size - 1;
      if head == capacity {
        head := 0;
      }
    }

    /** `increment_tail`: the slot after the tail joins the contents. */
    method IncrementTail()
      requires Valid() && size < capacity
      modifies this
      ensures Valid() && capacity == old(capacity) && store == old(store)
      ensures Contents() == old(Contents()) + [store[old(NextTail())]]
      ensures head == old(head) && live == old(live) && misused == old(misused)
      ensures forall k: nat :: InUse(k) <==> old(InUse(k)) || k == old(NextTail())
    {
      size := size + 1;
      tail := NextTail();
    }

    /** Writing the slot after the tail touches no item, or just the oldest when the buffer is full. */
    method WriteNext(item: T)
      requires Valid() && capacity > 0
      modifies store, this`live, this`misused
      ensures store[NextTail()] == item
      ensures Contents() == if size < capacity then old(Contents()) else [item] + old(Contents())[1..]
      ensures size < capacity ==>
        live == old(live) + {NextTail()} && misused == (old(misused) || NextTail() in old(live))
      ensures size == capacity ==> live == old(live) && misused == (old(misused) || NextTail() !in live)
    {
      if size == capacity {
        misused := misused || NextTail() !in live;
      } else {
        Construct(NextTail());
      }
      store[NextTail()] := item;
    }

    /** The slot after the tail is free, or the oldest item's when the buffer is full. */
    lemma NextIsFree()
      requires Valid() && capacity > 0
      ensures NextTail() < capacity && (InUse(NextTail()) <==> size == capacity)
      ensures size == capacity >= 2 ==> NextTail() == head
    {
    }

    /** `push_back` where there is a slot to write to. */
    method Append(item: T)
      requires Valid() && capacity > 0
      modifies this, store
      ensures Valid() && capacity == old(capacity) && store == old(store)
      ensures Contents() == LastN(old(Contents()) + [item], capacity)
      ensures old(Adrift()) ==> Adrift()
      ensures (old(Tidy()) ==> Tidy()) && (old(misused) ==> misused)
    {
      ghost var s := Contents();
      LastNPush(s, item, capacity);
      NextIsFree();
      WriteNext(item);
      if size == capacity {
        IncrementHead();
      }
      IncrementTail();
    }

    /** `push_back`; a buffer of capacity 0 has no slot to write to: undefined, and the state is left alone here. */
    method DoPushBack(item: T) returns (inside: bool)
      requires Valid()
      modifies this, store
      ensures inside <==> capacity > 0
      ensures Valid() && capacity == old(capacity) && store == old(store)
      ensures Contents() == if inside then LastN(old(Contents()) + [item], capacity) else old(Contents())
      ensures old(Adrift()) ==> Adrift()
      ensures (old(Tidy()) ==> Tidy()) && (old(misused) ==> misused)
    {
      inside := capacity > 0;
      if inside {
        Append(item);
      }
    }

    function PreviousHead(): nat
      requires capacity > 0
      reads this
    {
      if head == 0 then capacity - 1 else head - 1
    }

    /** `push_front` with room: the item goes into a free slot before the head. */
    method PrependFree(item: T)
      requires Valid() && size < capacity && head <= capacity
      modifies this, store
      ensures Valid() && capacity == old(capacity) && store == old(store)
      ensures Contents() == [item] + old(Contents())
      ensures old(Tidy()) ==> Tidy()
    {
      Construct(PreviousHead());
      store[PreviousHead()] := item;
      head := PreviousHead();
      size := size + 1;
    }

    /** `push_front` without room: the item takes the last one's slot, and is counted on top. */
    method PrependFull(item: T)
      requires Valid() && size == capacity > 0 && head <= capacity
      modifies this, store
      ensures capacity == old(capacity) && store == old(store)
      ensures size == capacity + 1 && head < capacity
      ensures forall i | 0 <= i < capacity :: store[Slot(head, i, capacity)] == ([item] + old(Contents()))[i]
    {
      misused := misused || PreviousHead() !in live;
      store[PreviousHead()] := item;
      head := PreviousHead();
      size := size + 1;
    }

    /**
     `push_front`. On a full buffer it replaces the last item, as its comment says, but still counts one more: the
     size passes the capacity and the buffer is no longer valid. With a head past the array, which happens only
     below capacity 2, it writes outside the array: undefined, and nothing is said about the state then.
     */
    method DoPushFront(item: T) returns (inside: bool)
      requires Valid()
      modifies this, store
      ensures inside <==> 0 < capacity && old(head) <= capacity
      ensures capacity >= 2 ==> inside
      ensures capacity == old(capacity) && store == old(store)
      ensures inside ==> (Valid() <==> old(size) < capacity)
      ensures inside && Valid() ==> Contents() == [item] + old(Contents())
      ensures inside && Valid() && old(Tidy()) ==> Tidy()
      ensures inside && !Valid() ==> size == capacity + 1 && head < capacity
      ensures inside && !Valid() ==>
        forall i | 0 <= i < capacity :: store[Slot(head, i, capacity)] == ([item] + old(Contents()))[i]
    {
      if capacity == 0 || head > capacity {
        return false;
      }
      if size == capacity {
        PrependFull(item);
      } else {
        PrependFree(item);
      }
      return true;
    }

    method DoPopFront()
      requires Valid()
      modifies this
      ensures Valid() && capacity == old(capacity) && store == old(store)
      ensures size == if old(size) > 0 then old(size) - 1 else 0
      ensures Contents() == if old(size) > 0 then old(Contents())[1..] else []
      ensures old(Adrift()) ==> Adrift()
      ensures old(Tidy()) ==> (Tidy() <==> old(size) == 0 || !old(Adrift()))
    {
      if size > 0 {
        ghost var destroyed := head;
        IncrementHead();
        Destroy(destroyed);
      }
    }

    /**
     `pop_back` takes the position to destroy before the last item: objects stay where the contents are only if there
     was nothing to remove, or with capacity 1, where the two positions are the same.
     */
    method DoPopBack()
      requires Valid()
      modifies this
      ensures Valid() && capacity == old(capacity) && store == old(store)
      ensures size == if old(size) > 0 then old(size) - 1 else 0
      ensures Contents() == if old(size) > 0 then old(Contents())[..size] else []
      ensures head == old(head)
      ensures old(Tidy()) ==> (Tidy() <==> old(size) == 0 || capacity == 1) && (Sound() <==> Tidy())
      ensures old(size) > 0 ==> live == old(live) - {tail}
      ensures old(size) > 0 && capacity >= 2 ==> forall k: nat :: InUse(k) <==> old(InUse(k)) && k != old(tail)
    {
      if size > 0 {
        ghost var destroyed := if tail == 0 then capacity - 1 else tail - 1;
        size := size - 1;
        tail := if tail == 0 then capacity - 1 else tail - 1;
        Destroy(destroyed);
      }
    }

    method DoSkip(len: nat)
      requires Valid()
      modifies this
      ensures Valid() && capacity == old(capacity) && store == old(store)
      ensures Contents() == if len >= old(size) then [] else old(Contents())[len..]
      ensures (old(Adrift()) ==> Adrift()) && (old(Tidy()) ==> Tidy())
    {
      if len >= size {
        DoClear();
        return;
      }
      ghost var s := Contents();
      for i := 0 to len
        invariant Valid() && capacity == old(capacity) && store == old(store)
        invariant size == |s| - i && Contents() == s[i..] && (old(Adrift()) ==> Adrift())
        invariant old(Tidy()) ==> Tidy()
      {
        DoPopFront();
      }
    }

    lemma LastInUse()
      requires Valid() && size > 0
      ensures InUse(tail)
    {
    }

    method DoChop(len: nat)
      requires Valid()
      modifies this
      ensures Valid() && capacity == old(capacity) && store == old(store)
      ensures Contents() == if len >= old(size) then [] else old(Contents())[..old(size) - len]
      ensures old(Adrift()) ==> Adrift()
      ensures old(Tidy()) ==> (Tidy() <==> len == 0 || len >= old(size))
    {
      if len >= size {
        DoClear();
        return;
      }
      ghost var s := Contents();
      LastInUse();
      for i := 0 to len
        invariant Valid() && capacity == old(capacity) && store == old(store)
        invariant size == |s| - i && Contents() == s[..|s| - i] && (old(Adrift()) ==> Adrift())
        invariant i == 0 ==> tail == old(tail)
        invariant old(Tidy()) ==> if i == 0 then Tidy() else old(tail) in live && !InUse(old(tail))
      {
        DoPopBack();
        LastInUse();
      }
    }

    /** The pushes of `assign_into`. */
    method AppendAll(items: seq<T>)
      requires Valid() && capacity > 0 && size == 0
      modifies this, store
      ensures Valid() && capacity == old(capacity) && store == old(store)
      ensures Contents() == LastN(items, capacity)
      ensures (old(Tidy()) ==> Tidy()) && (old(misused) ==> misused)
    {
      for i := 0 to |items|
        invariant Valid() && capacity == old(capacity) && store == old(store)
        invariant Contents() == LastN(items[..i], capacity)
        invariant (old(Tidy()) ==> Tidy()) && (old(misused) ==> misused)
      {
        LastNStep(items, i, capacity);
        Append(items[i]);
      }
      assert items[..|items|] == items;
    }

    /** `assign_into`: clears, then pushes every item; the last `capacity` of them stay. */
    method AssignInto(items: seq<T>) returns (inside: bool)
      requires Valid()
      modifies this, store
      ensures inside <==> capacity > 0 || items == []
      ensures Valid() && capacity == old(capacity) && store == old(store)
      ensures Contents() == LastN(items, capacity)
      ensures old(Tidy()) ==> Tidy()
      ensures old(size > 0 && live == {}) ==> misused
    {
      if size > 0 {
        DoClear();
      }
      inside := capacity > 0 || items == [];
      if capacity > 0 {
        AppendAll(items);
      }
    }

    /** `swap` with a buffer that is then destroyed, which clears away every item this one had. */
    method TakeOver(tmp: RingBuffer<T>)
      requires tmp.Valid() && tmp != this
      modifies this
      ensures Valid() && capacity == tmp.capacity && store == tmp.store && Contents() == tmp.Contents()
      ensures Tidy() <==> tmp.Tidy() && old(Sound())
    {
      ghost var sound := Sound();
      capacity, store, head, tail, size := tmp.capacity, tmp.store, tmp.head, tmp.tail, tmp.size;
      live, misused := tmp.live, tmp.misused || !sound;
      assert forall k: nat :: InUse(k) <==> tmp.InUse(k);
    }

    /**
     `reserve`: a new array with the last items that fit, whatever the wrap position was. Items are read from the old
     array and then destroyed in it, so each must have its object. It never writes outside the new one.
     */
    method Reserve(newSize: nat) returns (inside: bool)
      requires Valid()
      modifies this
      ensures inside
      ensures Valid() && capacity == newSize
      ensures store == old(store) || fresh(store)
      ensures Contents() == LastN(old(Contents()), newSize)
      ensures newSize != old(capacity) ==> (Tidy() <==> old(Sound()))
      ensures newSize == old(capacity) ==> (Tidy() <==> old(Tidy()))
    {
      if newSize != capacity {
        var tmp := new RingBuffer<T>(newSize);
        var offset := if newSize < size then size - newSize else 0;
        inside := tmp.AssignInto(Contents()[offset..]);
        TakeOver(tmp);
      } else {
        inside := true;
      }
    }

    /**
     Every run of operations refines the same run on the bounded sequence; with capacity 1, where the head may have
     left the array, every run without `push_front`.
     */
    method Replay(ops: seq<Op<T>>)
      requires Valid() && capacity > 0 && AllowedRun(Contents(), ops, capacity)
      requires capacity == 1 ==> forall op | op in ops :: !op.PushFront?
      modifies this, store
      ensures Valid() && capacity == old(capacity) && store == old(store)
      ensures Contents() == AbstractRun(old(Contents()), ops, capacity)
      ensures old(Adrift()) ==> Adrift()
      ensures capacity >= 2 && old(Tidy()) && (forall op | op in ops :: !op.PopBack? && !op.Chop?) ==> Tidy()
      decreases |ops|
    {
      if ops == [] {
        return;
      }
      ghost var before := Contents();
      match ops[0] {
        case PushBack(x) => var _ := DoPushBack(x);
        case PushFront(x) => var _ := DoPushFront(x);
        case PopFront => DoPopFront();
        case PopBack => DoPopBack();
        case Skip(len) => DoSkip(len);
        case Chop(len) => DoChop(len);
        case Clear => DoClear();
      }
      assert Contents() == Abstract(before, ops[0], capacity);
      Replay(ops[1..]);
    }
  }

  /**
   Whatever is done with a new buffer, `front()` is defined exactly from capacity 2 on, and is then the first item;
   with capacity 1 it never is, unless `push_front` is used.
   */
  method FrontAfter<T(0)>(capacity: nat, ops: seq<Op<T>>) returns (r: Outcome<T>)
    requires capacity > 0 && AllowedRun([], ops, capacity)
    requires capacity == 1 ==> forall op | op in ops :: !op.PushFront?
    ensures r.Defined? <==> capacity >= 2
    ensures r.Defined? && AbstractRun([], ops, capacity) != [] ==> r.value == AbstractRun([], ops, capacity)[0]
  {
    var buffer := new RingBuffer<T>(capacity);
    buffer.Replay(ops);
    r := buffer.Front();
  }
}
