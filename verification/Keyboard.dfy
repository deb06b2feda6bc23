/** The key ring between the interrupt handler and its reader in src/drivers/keyboard.c. */
module Keyboard {

  const SIZE := 64

  type Slot = i: int | 0 <= i < 64

  /** The slot k places after tail. */
  function At(tail: Slot, k: nat): Slot
    requires k <= SIZE
  {
    if tail + k < SIZE then tail + k else tail + k - SIZE
  }

  /** The n characters of the ring from tail on. */
  function Ring(buffer: seq<char>, tail: Slot, n: nat): (r: seq<char>)
    requires |buffer| == SIZE && n <= SIZE
    ensures |r| == n
  {
    if n == 0 then [] else Ring(buffer, tail, n - 1) + [buffer[At(tail, n - 1)]]
  }

  function Pending(head: Slot, tail: Slot): (n: nat)
    ensures n < SIZE && At(tail, n) == head
  {
    if head >= tail then head - tail else head - tail + SIZE
  }

  /** The index arithmetic of the code steps to the next slot. */
  lemma NextSlot(i: Slot)
    ensures (i + 1) % SIZE == At(i, 1)
  {
  }

  lemma {:induction false} RingSame(buffer: seq<char>, head: Slot, tail: Slot, n: nat, c: char)
    requires |buffer| == SIZE && n <= Pending(head, tail)
    ensures Ring(buffer[head := c], tail, n) == Ring(buffer, tail, n)
  {
    if n > 0 {
      RingSame(buffer, head, tail, n - 1, c);
    }
  }

  /** Storing at the head of a ring that is not full adds the character behind the others. */
  lemma RingPut(buffer: seq<char>, head: Slot, tail: Slot, c: char)
    requires |buffer| == SIZE && At(head, 1) != tail
    ensures var n := Pending(head, tail);
            && n < SIZE - 1 && Pending(At(head, 1), tail) == n + 1
            && Ring(buffer[head := c], tail, n + 1) == Ring(buffer, tail, n) + [c]
  {
    RingSame(buffer, head, tail, Pending(head, tail), c);
  }

  /** The first character of a ring that is not empty is the one at its tail. */
  lemma {:induction false} RingFirst(buffer: seq<char>, tail: Slot, n: nat)
    requires |buffer| == SIZE && 0 < n <= SIZE
    ensures Ring(buffer, tail, n) == [buffer[tail]] + Ring(buffer, At(tail, 1), n - 1)
  {
    if n > 1 {
      RingFirst(buffer, tail, n - 1);
      assert At(At(tail, 1), n - 2) == At(tail, n - 1);
    }
  }

  /** Moving the tail of a ring that is not empty takes its first character away. */
  lemma RingGet(buffer: seq<char>, head: Slot, tail: Slot)
    requires |buffer| == SIZE && head != tail
    ensures var n := Pending(head, tail);
            && n > 0 && Pending(head, At(tail, 1)) == n - 1 && Ring(buffer, tail, n)[0] == buffer[tail]
            && Ring(buffer, tail, n)[1..] == Ring(buffer, At(tail, 1), n - 1)
  {
    RingFirst(buffer, tail, Pending(head, tail));
  }

  /** Where the reader is between two of its steps: before the test of keyboard_get_char, before that of buffer_get,
      before the slot is read, and before the tail is moved, with the character read. */
  datatype Reader = Waiting | HasKey | NotEmpty | Holding(c: char)

  /** What can happen next: a key interrupt, which is not interrupted itself, or a step of the reader. */
  datatype Event = Key(c: char) | ReaderStep

  class KeyRing {
    const buffer: array<char>
    var head: Slot
    var tail: Slot
    var reader: Reader

    /** All characters taken into the ring so far, and all handed to the reader so far. */
    ghost var accepted: seq<char>
    ghost var delivered: seq<char>

    ghost function Contents(): seq<char>
      requires buffer.Length == SIZE
      reads this, buffer
    {
      Ring(buffer[..], tail, Pending(head, tail))
    }

    /** The characters accepted are those delivered, in order, and then the contents of the ring. */
    ghost predicate Valid()
      reads this, buffer
    {
      && buffer.Length == SIZE
      && accepted == delivered + Contents()
      && (reader != Waiting ==> Contents() != [])
      && (reader.Holding? ==> reader.c == Contents()[0])
    }

    constructor ()
      ensures Valid() && fresh(buffer) && accepted == [] && delivered == [] && reader == Waiting
    {
      buffer := new char[SIZE](_ => '\0');
      head, tail, reader := 0, 0, Waiting;
      accepted, delivered := [], [];
    }

    /** buffer_put (src/drivers/keyboard.c:40): a key is dropped exactly when 63 are pending. */
    method BufferPut(c: char)
      requires Valid()
      modifies this`head, this`accepted, buffer
      ensures Valid() && delivered == old(delivered)
      ensures |old(Contents())| <= 63
      ensures accepted == old(accepted) + if |old(Contents())| < 63 then [c] else []
      ensures Contents() == old(Contents()) + if |old(Contents())| < 63 then [c] else []
    {
      NextSlot(head);
      var next := (head + 1) % SIZE;
      if next != tail {
        RingPut(buffer[..], head, tail, c);
        ghost var before := buffer[..];
        buffer[head] := c;
        assert buffer[..] == before[head := c];
        head := next;
        accepted := accepted + [c];
      }
    }

    /** One step of keyboard_get_char and buffer_get (src/drivers/keyboard.c:51-58, 78-83). */
    method Step()
      requires Valid()
      modifies this`tail, this`reader, this`delivered
      ensures Valid() && accepted == old(accepted)
      ensures reader == match old(reader)
                        case Waiting => if old(Contents()) == [] then Waiting else HasKey
                        case HasKey => NotEmpty
                        case NotEmpty => Holding(old(Contents())[0])
                        case Holding(_) => Waiting
      ensures if old(reader).Holding? then Contents() == old(Contents())[1..] &&
              delivered == old(delivered) + [old(reader).c]
              else Contents() == old(Contents()) && delivered == old(delivered)
    {
      match reader
      case Waiting =>
        if head != tail {
          reader := HasKey;
        }
      case HasKey =>
        reader := if tail == head then Waiting else NotEmpty;
      case NotEmpty =>
        RingGet(buffer[..], head, tail);
        reader := Holding(buffer[tail]);
      case Holding(c) =>
        RingGet(buffer[..], head, tail);
        NextSlot(tail);
        tail := (tail + 1) % SIZE;
        delivered := delivered + [c];
        reader := Waiting;
    }
  }

  // ---- Runs ----

  /** A bounded queue whose operations happen at once: what the ring is meant to be. */
  datatype Queue = Queue(pending: seq<char>, taken: seq<char>, steps: nat)

  /** A key joins the queue unless 63 are pending; the first step of the reader finds a key, and the fourth takes it. */
  function Next(q: Queue, e: Event): Queue {
    match e
    case Key(c) => if |q.pending| < SIZE - 1 then q.(pending := q.pending + [c]) else q
    case ReaderStep =>
      if q.pending == [] then q
      else if q.steps < 3 then q.(steps := q.steps + 1)
      else Queue(q.pending[1..], q.taken + [q.pending[0]], 0)
  }

  function After(events: seq<Event>): Queue {
    if events == [] then Queue([], [], 0) else Next(After(events[..|events| - 1]), events[|events| - 1])
  }

  function StepsDone(r: Reader): nat {
    match r
    case Waiting => 0
    case HasKey => 1
    case NotEmpty => 2
    case Holding(_) => 3
  }

  /** Under any interleaving of keys with the steps of the reader, the ring is the bounded queue. */
  method Run(events: seq<Event>) returns (ring: KeyRing)
    ensures ring.Valid()
    ensures var q := After(events);
            ring.Contents() == q.pending && ring.delivered == q.taken && StepsDone(ring.reader) == q.steps
  {
    ring := new KeyRing();
    for i := 0 to |events|
      invariant ring.Valid() && fresh(ring) && fresh(ring.buffer)
      invariant var q := After(events[..i]);
                ring.Contents() == q.pending && ring.delivered == q.taken && StepsDone(ring.reader) == q.steps
    {
      assert events[..i + 1][..i] == events[..i];
      match events[i]
      case Key(c) => ring.BufferPut(c);
      case ReaderStep => ring.Step();
    }
    assert events[..|events|] == events;
  }

  /** The keys among the events, in order. */
  function Keys(events: seq<Event>): seq<char> {
    if events == [] then [] else
      var rest, e := Keys(events[..|events| - 1]), events[|events| - 1];
      if e.Key? then rest + [e.c] else rest
  }

  /** s is made from t by leaving out characters. */
  ghost predicate Thinned(s: seq<char>, t: seq<char>) {
    if t == [] then s == []
    else (s != [] && s[|s| - 1] == t[|t| - 1] && Thinned(s[..|s| - 1], t[..|t| - 1])) || Thinned(s, t[..|t| - 1])
  }

  lemma ThinnedMore(s: seq<char>, t: seq<char>, c: char)
    requires Thinned(s, t)
    ensures Thinned(s + [c], t + [c]) && Thinned(s, t + [c])
  {
    assert (s + [c])[..|s|] == s && (t + [c])[..|t|] == t;
  }

  lemma TakeFirst(taken: seq<char>, pending: seq<char>)
    requires pending != []
    ensures taken + [pending[0]] + pending[1..] == taken + pending
  {
  }

  /** What a queue has handed out and still holds. */
  function Flow(q: Queue): seq<char> {
    q.taken + q.pending
  }

  lemma FlowNext(q: Queue, e: Event)
    ensures Flow(Next(q, e)) == if e.Key? && |q.pending| < SIZE - 1 then Flow(q) + [e.c] else Flow(q)
  {
    if e.Key? {
      assert q.taken + (q.pending + [e.c]) == Flow(q) + [e.c];
    } else if q.pending != [] {
      TakeFirst(q.taken, q.pending);
    }
  }

  /** Nothing is made up or reordered: what the reader gets, followed by what is pending, is what was typed but for
      dropped keys, at most 63 are pending, and none is dropped as long as no more than 63 are typed. */
  lemma {:induction false} NothingLost(events: seq<Event>)
    ensures var q := After(events);
            && |q.pending| <= SIZE - 1
            && Thinned(Flow(q), Keys(events))
            && (|Keys(events)| <= SIZE - 1 ==> Flow(q) == Keys(events))
  {
    if events != [] {
      var front, e := events[..|events| - 1], events[|events| - 1];
      NothingLost(front);
      FlowNext(After(front), e);
      if e.Key? {
        ThinnedMore(Flow(After(front)), Keys(front), e.c);
      }
    }
  }
}
