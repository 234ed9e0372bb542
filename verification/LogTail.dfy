/** bounded_log_tail: a ring buffer that holds the end of everything ever appended. */
module LogTail {

  function Min(a: nat, b: nat): nat {
    if a < b then a else b
  }

  /** The last `capacity` bytes, or all of them. */
  function Tail(history: seq<char>, capacity: nat): (r: seq<char>)
    ensures |r| == Min(|history|, capacity)
  {
    history[|history| - Min(|history|, capacity)..]
  }

  /** What a read at `offset` of the full history returns: the part that is still retained. */
  function Window(history: seq<char>, capacity: nat, offset: nat, maxSize: nat): seq<char> {
    var begin := |history| - Min(|history|, capacity);
    var from := if offset < begin then begin else offset;
    if from >= |history| then [] else history[from..from + Min(maxSize, |history| - from)]
  }

  /** A read inside the retained range begins where it was asked to; an earlier one at its start. */
  lemma WindowMeans(history: seq<char>, capacity: nat, offset: nat, maxSize: nat)
    ensures var text, first := Window(history, capacity, offset, maxSize), |history| - Min(|history|, capacity);
      && (offset >= |history| ==> text == [])
      && (offset < first ==> text == Window(history, capacity, first, maxSize))
      && (first <= offset < |history| ==>
            && |text| == (if maxSize < |history| - offset then maxSize else |history| - offset)
            && forall i :: 0 <= i < |text| ==> text[i] == history[offset + i])
  {}

  lemma ModOnce(x: nat, n: nat)
    requires 0 < n && x < 2 * n
    ensures x % n == if x < n then x else x - n
  {}

  /** The place of element `i` in a ring of `n` that starts at `begin`. */
  function Slot(begin: nat, i: nat, n: nat): (k: nat)
    requires begin < n && i <= n
    ensures k < n || i == n
    ensures k == (begin + i) % n
  {
    ModOnce(begin + i, n);
    if begin + i < n then begin + i else begin + i - n
  }

  /** What is retained depends on the whole history only, not on the pieces it came in. */
  lemma TailOfTail(a: seq<char>, b: seq<char>, capacity: nat)
    ensures Tail(Tail(a, capacity) + b, capacity) == Tail(a + b, capacity)
  {}

  class BoundedLogTail {
    const storage: array<char>
    var begin: nat
    var size: nat
    var totalBytes: nat

    // everything appended since the last clear
    ghost var history: seq<char>

    /** The ring holds exactly the tail of the history. */
    ghost predicate Valid()
      reads this, storage
    {
      && totalBytes == |history|
      && size == Min(|history|, storage.Length)
      && (if storage.Length == 0 then begin == 0 else begin < storage.Length)
      && Holds(storage[..], begin, Tail(history, storage.Length))
    }

    constructor (capacity: nat)
      ensures Valid() && history == [] && storage.Length == capacity && fresh(storage)
    {
      storage := new char[capacity];
      begin, size, totalBytes, history := 0, 0, 0, [];
    }

    method Clear()
      requires Valid()
      modifies this
      ensures Valid() && history == []
    {
      begin, size, totalBytes, history := 0, 0, 0, [];
    }

    method Append(data: seq<char>)
      requires Valid()
      modifies this, storage
      ensures Valid() && history == old(history) + data
    {
      if data == [] {
        assert history + data == history;
        return;
      }
      totalBytes := totalBytes + |data|;
      history := history + data;
      if storage.Length == 0 { return; }
      if |data| >= storage.Length {
        Replace(data[|data| - storage.Length..]);
      } else {
        TailGrows(old(history), data, storage.Length);
        Wrap(data, Tail(old(history), storage.Length));
      }
    }

    /** The new data fills the whole ring. */
    method Replace(last: seq<char>)
      requires |last| == storage.Length > 0
      modifies this`begin, this`size, storage
      ensures begin == 0 && size == |last| && Holds(storage[..], begin, last)
    {
      for i := 0 to |last|
        invariant forall k :: 0 <= k < i ==> storage[k] == last[k]
        modifies storage
      {
        storage[i] := last[i];
      }
      begin, size := 0, |last|;
    }

    /** The new data displaces as much of the old as necessary. */
    method Wrap(data: seq<char>, ghost content: seq<char>)
      requires |data| < storage.Length && size == |content| && Holds(storage[..], begin, content)
      modifies this`begin, this`size, storage
      ensures begin < storage.Length
      ensures size == Min(|content| + |data|, storage.Length)
      ensures Holds(storage[..], begin, content[Overflow(|content|, |data|, storage.Length)..] + data)
    {
      var capacity := storage.Length;
      var overflow := Overflow(size, |data|, capacity);
      ghost var kept := content[overflow..];
      DropFirst(storage[..], begin, content, overflow);
      assert (begin + overflow) % capacity == Slot(begin, overflow, capacity);
      begin := (begin + overflow) % capacity;
      size := size - overflow;
      for i := 0 to |data|
        invariant Holds(storage[..], begin, kept + data[..i])
        modifies storage
      {
        ghost var before := storage[..];
        assert (begin + size + i) % capacity == Slot(begin, size + i, capacity);
        storage[(begin + size + i) % capacity] := data[i];
        assert storage[..] == before[Slot(begin, size + i, capacity) := data[i]];
        WriteNext(before, begin, kept + data[..i], data[i]);
        assert kept + data[..i] + [data[i]] == kept + data[..i + 1];
      }
      assert data[..|data|] == data;
      size := size + |data|;
    }

    method Read(offset: nat, maxSize: nat) returns (text: seq<char>)
      requires Valid()
      ensures text == Window(history, storage.Length, offset, maxSize)
    {
      var beginOffset := totalBytes - size;
      var from := if offset < beginOffset then beginOffset else offset;
      if from >= totalBytes || maxSize == 0 || storage.Length == 0 { return []; }
      var local := from - beginOffset;
      var count := Min(maxSize, size - local);
      text := [];
      for i := 0 to count
        invariant text == history[from..from + i]
      {
        assert Tail(history, storage.Length)[local + i] == history[from + i];
        assert storage[..][Slot(begin, local + i, storage.Length)] == history[from + i];
        assert (begin + local + i) % storage.Length == Slot(begin, local + i, storage.Length);
        text := text + [storage[(begin + local + i) % storage.Length]];
      }
    }

    method Snapshot() returns (text: seq<char>)
      requires Valid()
      ensures text == Tail(history, storage.Length)
    {
      text := Read(totalBytes - size, size);
    }
  }

  /** Reading `ring` circularly from `begin` gives `content`. */
  ghost predicate Holds(ring: seq<char>, begin: nat, content: seq<char>) {
    && |content| <= |ring|
    && (ring != [] ==> begin < |ring|)
    && forall i :: 0 <= i < |content| ==> ring[Slot(begin, i, |ring|)] == content[i]
  }

  lemma DropFirst(ring: seq<char>, begin: nat, content: seq<char>, n: nat)
    requires ring != [] && Holds(ring, begin, content) && n <= |content| && n < |ring|
    ensures Holds(ring, Slot(begin, n, |ring|), content[n..])
  {}

  lemma WriteNext(ring: seq<char>, begin: nat, content: seq<char>, c: char)
    requires begin < |ring| && |content| < |ring| && Holds(ring, begin, content)
    ensures Holds(ring[Slot(begin, |content|, |ring|) := c], begin, content + [c])
  {}

  /** How many of the oldest bytes have to go. */
  function Overflow(size: nat, more: nat, capacity: nat): nat {
    if size + more > capacity then size + more - capacity else 0
  }

  lemma TailGrows(history: seq<char>, data: seq<char>, capacity: nat)
    requires |data| < capacity
    ensures Overflow(|Tail(history, capacity)|, |data|, capacity) <= |Tail(history, capacity)|
    ensures Tail(history, capacity)[Overflow(|Tail(history, capacity)|, |data|, capacity)..] + data ==
      Tail(history + data, capacity)
  {}
}
