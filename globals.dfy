/** The NewtonOS scheduler globals at fixed addresses of emulated memory, each
    bound to a typed 32-bit getter and setter (namespace NewtOS, Globals.cpp). */
module NewtGlobals {
  import opened Basics

  /** The range of global variables in emulated memory, 0x0C008400-0x0C107E18. */
  const GlobalsStart: Word := 0x0C00_8400
  const GlobalsEnd: Word := 0x0C10_7E18

  /** gParamBlockFromImage: the image parameter block, at the start of the range. */
  const ParamBlockFromImage: Word := GlobalsStart

  /** The C type a binding is declared with. */
  datatype CType = KSInt32 | KUInt32 | TaskPointer

  /** The bound globals, in address order. */
  datatype Global =
    | AtomicFIQNestCountFast
    | AtomicIRQNestCountFast
    | Schedule
    | AtomicNestCount
    | AtomicFIQNestCount
    | CurrentTask
    | WantDeferred
    | CopyDone
    | WantSchedulerToRun

  /** The emulated address a global is bound to. Each is word aligned, lies
      past the parameter block inside the global range, and is the address of
      no other global (GlobalAt inverts it). */
  function Address(g: Global): (a: Word)
    ensures a % 4 == 0
    ensures GlobalsStart <= ParamBlockFromImage < a && a + 4 <= GlobalsEnd
    ensures GlobalAt(a) == Some(g)
  {
    match g
    case AtomicFIQNestCountFast => 0x0C10_0E58
    case AtomicIRQNestCountFast => 0x0C10_0E5C
    case Schedule => 0x0C10_0FE4
    case AtomicNestCount => 0x0C10_0FE8
    case AtomicFIQNestCount => 0x0C10_0FF0
    case CurrentTask => 0x0C10_0FF8
    case WantDeferred => 0x0C10_1028
    case CopyDone => 0x0C10_1040
    case WantSchedulerToRun => 0x0C10_1A2C
  }

  /** The global bound to an address, if any. */
  function GlobalAt(a: Word): Option<Global> {
    if a == 0x0C10_0E58 then Some(AtomicFIQNestCountFast)
    else if a == 0x0C10_0E5C then Some(AtomicIRQNestCountFast)
    else if a == 0x0C10_0FE4 then Some(Schedule)
    else if a == 0x0C10_0FE8 then Some(AtomicNestCount)
    else if a == 0x0C10_0FF0 then Some(AtomicFIQNestCount)
    else if a == 0x0C10_0FF8 then Some(CurrentTask)
    else if a == 0x0C10_1028 then Some(WantDeferred)
    else if a == 0x0C10_1040 then Some(CopyDone)
    else if a == 0x0C10_1A2C then Some(WantSchedulerToRun)
    else None
  }

  /** The type a binding is declared with; CurrentTask is the only pointer. */
  function TypeOf(g: Global): (t: CType)
    ensures t == TaskPointer <==> g == CurrentTask
  {
    match g
    case AtomicFIQNestCountFast => KSInt32
    case AtomicIRQNestCountFast => KSInt32
    case Schedule => KUInt32
    case AtomicNestCount => KSInt32
    case AtomicFIQNestCount => KSInt32
    case CurrentTask => TaskPointer
    case WantDeferred => KUInt32
    case CopyDone => KUInt32
    case WantSchedulerToRun => KUInt32
  }

  /** Two different globals never share a byte: their 32-bit words are disjoint. */
  lemma NoOverlap(g: Global, h: Global)
    requires g != h
    ensures Address(g) + 4 <= Address(h) || Address(h) + 4 <= Address(g)
  {
    var a, b := Address(g), Address(h);
    assert a != b by {
      assert GlobalAt(a) == Some(g) && GlobalAt(b) == Some(h);
    }
    assert a % 4 == 0 && b % 4 == 0;
  }

  /** A TTask* kept in a global: nullptr, or an emulated address that is not 0. */
  datatype TaskPtr = NullTask | TaskAt(addr: Word)
  type TaskRef = p: TaskPtr | p.NullTask? || p.addr != 0 witness NullTask

  /** The 32-bit token a task pointer is stored as. */
  function TaskToken(p: TaskRef): (w: Word)
    ensures (w == 0) == p.NullTask?
  {
    match p
    case NullTask => 0
    case TaskAt(a) => a
  }

  /** The task pointer a stored token stands for; the inverse of TaskToken. */
  function TaskOfToken(w: Word): (p: TaskRef)
    ensures TaskToken(p) == w
  {
    if w == 0 then NullTask else TaskAt(w)
  }

  /** A task pointer survives being stored as a token and read back. */
  lemma TaskTokenRoundTrip(p: TaskRef)
    ensures TaskOfToken(TaskToken(p)) == p
  {
  }

  /** The emulated memory the globals live in, accessed a word at a time. */
  class GlobalMemory {
    var words: map<Word, Word>

    /** Every bound global is backed by a word of memory. */
    ghost predicate Valid()
      reads this
    {
      forall g: Global :: Address(g) in words
    }

    constructor (init: map<Word, Word>)
      requires forall g: Global :: Address(g) in init
      ensures Valid() && words == init
    {
      words := init;
    }

    /** The word a global currently holds. */
    ghost function Value(g: Global): Word
      reads this
      requires Valid()
    {
      words[Address(g)]
    }

    /** The raw word getter: a live read of the bound address, no side effects. */
    method GetWord(g: Global) returns (w: Word)
      requires Valid()
      ensures w == Value(g)
    {
      w := words[Address(g)];
    }

    /** The raw word setter: writes the bound word and nothing else. */
    method SetWord(g: Global, w: Word)
      requires Valid()
      modifies this
      ensures Valid()
      ensures words == old(words)[Address(g) := w]
      ensures Value(g) == w
      ensures forall h: Global :: h != g ==> Value(h) == old(Value(h))
    {
      words := words[Address(g) := w];
    }

    /** Getter of a KSInt32 global: the word read as two's complement. */
    method GetInt32(g: Global) returns (i: int)
      requires Valid() && TypeOf(g) == KSInt32
      ensures IsInt32(i) && FromInt32(i) == Value(g)
    {
      var w := GetWord(g);
      i := ToInt32(w);
    }

    /** Setter of a KSInt32 global. */
    method SetInt32(g: Global, i: int)
      requires Valid() && TypeOf(g) == KSInt32 && IsInt32(i)
      modifies this
      ensures Valid()
      ensures words == old(words)[Address(g) := FromInt32(i)]
      ensures ToInt32(Value(g)) == i
      ensures forall h: Global :: h != g ==> Value(h) == old(Value(h))
    {
      SetWord(g, FromInt32(i));
      Int32RoundTrip(i);
    }

    /** Getter of a KUInt32 global. */
    method GetUInt32(g: Global) returns (n: Word)
      requires Valid() && TypeOf(g) == KUInt32
      ensures n == Value(g)
    {
      n := GetWord(g);
    }

    /** Setter of a KUInt32 global. */
    method SetUInt32(g: Global, n: Word)
      requires Valid() && TypeOf(g) == KUInt32
      modifies this
      ensures Valid()
      ensures words == old(words)[Address(g) := n]
      ensures forall h: Global :: h != g ==> Value(h) == old(Value(h))
    {
      SetWord(g, n);
    }

    /** GetCurrentTask: the stored token read back as a task pointer. */
    method GetCurrentTask() returns (p: TaskRef)
      requires Valid()
      ensures TaskToken(p) == Value(CurrentTask)
    {
      var w := GetWord(CurrentTask);
      p := TaskOfToken(w);
    }

    /** SetCurrentTask: stores the task pointer's 32-bit token. */
    method SetCurrentTask(p: TaskRef)
      requires Valid()
      modifies this
      ensures Valid()
      ensures words == old(words)[Address(CurrentTask) := TaskToken(p)]
      ensures TaskOfToken(Value(CurrentTask)) == p
      ensures forall h: Global :: h != CurrentTask ==> Value(h) == old(Value(h))
    {
      SetWord(CurrentTask, TaskToken(p));
      TaskTokenRoundTrip(p);
    }
  }
}
