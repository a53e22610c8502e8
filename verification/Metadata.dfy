/** Message metadata in one tagged word: the arena's address while there are no unknown fields, else the
    address, plus one, of a container with the unknown fields and the arena. The pair behind the word is all
    a user can tell, on every run, and containers off the arenas are deleted exactly once. */
module Metadata {
  import opened Basics

  datatype UnknownField = UnknownField(number: nat, data: seq<byte>)

  type UnknownFieldSet = seq<UnknownField>

  datatype Container = Container(fields: UnknownFieldSet, arena: nat)

  // ----- the word -----

  const TAG_CONTAINER := 1

  function PtrTag(word: nat): nat {
    word % 2
  }

  function PtrValue(word: nat): nat {
    word - word % 2
  }

  predicate HaveUnknownFields(word: nat) {
    PtrTag(word) == TAG_CONTAINER
  }

  /** A container's address is even, as allocation aligns it. */
  function Tagged(container: nat): nat
    requires container % 2 == 0
  {
    container + TAG_CONTAINER
  }

  // ----- memory -----

  datatype Memory = Memory(next: nat, containers: map<nat, Container>,
                           owned: multiset<(nat, nat)>, deleted: multiset<nat>)
  {
    /** Arena::Create: on the heap for NULL, else in the arena's charge. */
    function Create(arena: nat): Memory {
      this.(next := next + 2, containers := containers[next := Container([], arena)],
            owned := if arena == 0 then owned else owned + multiset{(arena, next)})
    }

    function Write(a: nat, fields: UnknownFieldSet): Memory
      requires a in containers
    {
      this.(containers := containers[a := containers[a].(fields := fields)])
    }

    function Delete(a: nat): Memory
      requires a in containers
    {
      this.(containers := containers - {a}, deleted := deleted + multiset{a})
    }

    /** The word leads to an arena or to a live container. */
    predicate Reads(word: nat) {
      HaveUnknownFields(word) ==> PtrValue(word) in containers
    }

    function Arena(word: nat): nat
      requires Reads(word)
    {
      if HaveUnknownFields(word) then containers[PtrValue(word)].arena else PtrValue(word)
    }

    function UnknownFields(word: nat): UnknownFieldSet
      requires Reads(word)
    {
      if HaveUnknownFields(word) then containers[PtrValue(word)].fields else []
    }
  }

  // ----- what a word means -----

  /** All a user can tell about the metadata of a message. */
  datatype Meaning = Meaning(arena: nat, fields: UnknownFieldSet)

  datatype World = World(mem: Memory, words: map<nat, nat>)

  datatype Op =
    | Construct(id: nat, arena: nat)
    | Change(id: nat, fields: UnknownFieldSet) // mutable_unknown_fields and an assignment through it
    | Swap(id: nat, other: nat, otherFirst: bool) // and which argument is evaluated first
    | Destruct(id: nat)

  predicate Allowed(w: World, op: Op) {
    match op
    case Construct(id, arena) => id !in w.words && arena % 2 == 0
    case Change(id, _) => id in w.words
    case Swap(id, other, _) => id in w.words && other in w.words
    case Destruct(id) => id in w.words
  }

  /** mutable_unknown_fields_slow: a container that remembers the arena, and its tagged address. */
  function Created(m: Memory, word: nat): (Memory, nat)
    requires m.Reads(word) && m.next % 2 == 0
  {
    (m.Create(m.Arena(word)), Tagged(m.next))
  }

  /** After mutable_unknown_fields: the word has a container. */
  function WithContainer(w: World, id: nat): World
    requires id in w.words && w.mem.Reads(w.words[id]) && w.mem.next % 2 == 0
  {
    var word := w.words[id];
    if HaveUnknownFields(word) then w
    else var (m, tagged) := Created(w.mem, word); World(m, w.words[id := tagged])
  }

  function Address(w: World, id: nat): nat
    requires id in w.words
  {
    PtrValue(w.words[id])
  }

  /** Every word leads somewhere, and no two lead to the same container. */
  ghost predicate GoodWords(w: World) {
    (forall id <- w.words :: w.mem.Reads(w.words[id]))
    && forall i <- w.words, j <- w.words | i != j && HaveUnknownFields(w.words[i]) :: w.words[i] != w.words[j]
  }

  /** Arenas are in charge of live containers only; what is no longer live was deleted, once. */
  ghost predicate GoodLedgers(m: Memory) {
    m.next % 2 == 0 && m.next > 0
    && (forall a <- m.containers :: IsAddress(m, a))
    && (forall a: nat, k: nat :: m.owned[(k, a)] ==
          if a in m.containers && k != 0 && k == m.containers[a].arena then 1 else 0)
    && forall a: nat :: m.deleted[a] == if IsAddress(m, a) && a !in m.containers then 1 else 0
  }

  /** A container off the arenas has its word. */
  ghost predicate Kept(w: World, a: nat)
    requires a % 2 == 0
  {
    a in w.mem.containers && w.mem.containers[a].arena == 0 ==> exists id :: id in w.words && w.words[id] == Tagged(a)
  }

  ghost predicate Good(w: World) {
    GoodWords(w) && GoodLedgers(w.mem) && forall a: nat | a % 2 == 0 :: Kept(w, a)
  }

  predicate IsAddress(m: Memory, a: nat) {
    0 < a < m.next && a % 2 == 0
  }

  // ----- the operations -----

  function Assign(w: World, id: nat, fields: UnknownFieldSet): World
    requires id in w.words && Address(w, id) in w.mem.containers
  {
    w.(mem := w.mem.Write(Address(w, id), fields))
  }

  /** UnknownFieldSet's own swap, on the two containers. */
  function Exchange(w: World, id: nat, other: nat): World
    requires id in w.words && Address(w, id) in w.mem.containers
    requires other in w.words && Address(w, other) in w.mem.containers
  {
    var mine, others := w.mem.containers[Address(w, id)].fields, w.mem.containers[Address(w, other)].fields;
    Assign(Assign(w, id, others), other, mine)
  }

  function Destroyed(m: Memory, word: nat): Memory
    requires m.Reads(word)
  {
    if HaveUnknownFields(word) && m.Arena(word) == 0 then m.Delete(PtrValue(word)) else m
  }

  ghost function Step(w: World, op: Op): World
    requires Good(w) && Allowed(w, op)
  {
    match op
    case Construct(id, arena) => w.(words := w.words[id := arena])
    case Change(id, fields) =>
      WithContainerKeeps(w, id);
      Assign(WithContainer(w, id), id, fields)
    case Swap(id, other, otherFirst) =>
      if !HaveUnknownFields(w.words[id]) && !HaveUnknownFields(w.words[other]) then w
      else
        var first, second := if otherFirst then other else id, if otherFirst then id else other;
        WithContainerKeeps(w, first);
        WithContainerKeeps(WithContainer(w, first), second);
        Exchange(WithContainer(WithContainer(w, first), second), id, other)
    case Destruct(id) =>
      World(Destroyed(w.mem, w.words[id]), w.words - {id})
  }

  /** The same operations on plain pairs of an arena and its unknown fields. */
  function MeaningStep(ms: map<nat, Meaning>, op: Op): map<nat, Meaning>
    requires match op
             case Construct(id, _) => id !in ms
             case Change(id, _) => id in ms
             case Swap(id, other, _) => id in ms && other in ms
             case Destruct(id) => id in ms
  {
    match op
    case Construct(id, arena) => ms[id := Meaning(arena, [])]
    case Change(id, fields) => ms[id := Meaning(ms[id].arena, fields)]
    case Swap(id, other, _) =>
      ms[id := Meaning(ms[id].arena, ms[other].fields)][other := Meaning(ms[other].arena, ms[id].fields)]
    case Destruct(id) => ms - {id}
  }

  function MeaningOf(m: Memory, word: nat): Meaning
    requires m.Reads(word)
  {
    Meaning(m.Arena(word), m.UnknownFields(word))
  }

  ghost function Meanings(w: World): (ms: map<nat, Meaning>)
    requires Good(w)
    ensures ms.Keys == w.words.Keys
  {
    map id | id in w.words :: MeaningOf(w.mem, w.words[id])
  }

  lemma TagRoundTrip(a: nat)
    requires a % 2 == 0
    ensures HaveUnknownFields(Tagged(a)) && PtrValue(Tagged(a)) == a && !HaveUnknownFields(a) && PtrValue(a) == a
  {
  }

  lemma WithContainerKeeps(w: World, id: nat)
    requires Good(w) && id in w.words
    ensures var v := WithContainer(w, id);
            && Good(v) && v.words.Keys == w.words.Keys && HaveUnknownFields(v.words[id])
            && Address(v, id) in v.mem.containers && Meanings(v) == Meanings(w)
    ensures forall i <- w.words :: HaveUnknownFields(w.words[i]) ==>
      WithContainer(w, id).words[i] == w.words[i]
  {
    if !HaveUnknownFields(w.words[id]) {
      CreatedWords(w, id);
      CreatedLedgers(w, id);
      forall a: nat | a % 2 == 0 ensures Kept(WithContainer(w, id), a) { CreatedKept(w, id, a); }
      hide Kept, GoodLedgers, GoodWords;
      CreatedMeanings(w, id);
    }
  }

  lemma CreatedWords(w: World, id: nat)
    requires GoodWords(w) && GoodLedgers(w.mem) && id in w.words && !HaveUnknownFields(w.words[id])
    ensures GoodWords(WithContainer(w, id)) && WithContainer(w, id).words.Keys == w.words.Keys
    ensures HaveUnknownFields(WithContainer(w, id).words[id])
    ensures Address(WithContainer(w, id), id) in WithContainer(w, id).mem.containers
  {
    TagRoundTrip(w.mem.next);
  }

  lemma CreatedLedgers(w: World, id: nat)
    requires GoodWords(w) && GoodLedgers(w.mem) && id in w.words && !HaveUnknownFields(w.words[id])
    ensures GoodLedgers(WithContainer(w, id).mem)
  {
  }

  lemma CreatedKept(w: World, id: nat, a: nat)
    requires Good(w) && id in w.words && !HaveUnknownFields(w.words[id]) && a % 2 == 0
    ensures Kept(WithContainer(w, id), a)
  {
    assert Kept(w, a);
    TagRoundTrip(a);
    if a == w.mem.next {
      assert WithContainer(w, id).words[id] == Tagged(a);
    } else if a in w.mem.containers && w.mem.containers[a].arena == 0 {
      var i :| i in w.words && w.words[i] == Tagged(a);
      assert WithContainer(w, id).words[i] == Tagged(a);
    }
  }

  lemma CreatedMeanings(w: World, id: nat)
    requires Good(w) && id in w.words && !HaveUnknownFields(w.words[id]) && Good(WithContainer(w, id))
    ensures Meanings(WithContainer(w, id)) == Meanings(w)
  {
    TagRoundTrip(w.mem.next);
    forall i <- w.words ensures Meanings(WithContainer(w, id))[i] == Meanings(w)[i] {
      assert w.mem.Reads(w.words[i]);
    }
  }

  lemma AssignKeeps(w: World, id: nat, fields: UnknownFieldSet)
    requires Good(w) && id in w.words && HaveUnknownFields(w.words[id])
    ensures var v := Assign(w, id, fields);
            Good(v) && Meanings(v) == Meanings(w)[id := Meaning(Meanings(w)[id].arena, fields)]
  {
    var v := Assign(w, id, fields);
    forall a: nat | a % 2 == 0 ensures Kept(v, a) { assert Kept(w, a); }
    assert GoodLedgers(v.mem);
    hide Kept, GoodLedgers;
    forall i <- w.words
      ensures MeaningOf(v.mem, v.words[i]) == if i == id then Meaning(Meanings(w)[id].arena, fields) else Meanings(w)[i]
    {
      assert w.mem.Reads(w.words[i]);
    }
  }

  lemma ExchangeKeeps(w: World, id: nat, other: nat)
    requires Good(w) && id in w.words && other in w.words
    requires HaveUnknownFields(w.words[id]) && HaveUnknownFields(w.words[other])
    ensures var v := Exchange(w, id, other); Good(v) && Meanings(v) == MeaningStep(Meanings(w), Swap(id, other, false))
  {
    var mine, others := Meanings(w)[id].fields, Meanings(w)[other].fields;
    AssignKeeps(w, id, others);
    AssignKeeps(Assign(w, id, others), other, mine);
  }

  lemma DestructKeeps(w: World, id: nat)
    requires Good(w) && id in w.words
    ensures Good(Step(w, Destruct(id)))
    ensures Meanings(Step(w, Destruct(id))) == MeaningStep(Meanings(w), Destruct(id))
  {
    var v := Step(w, Destruct(id));
    assert GoodWords(v);
    assert GoodLedgers(v.mem);
    forall a: nat | a % 2 == 0 ensures Kept(v, a) {
      assert Kept(w, a);
      if a in v.mem.containers && v.mem.containers[a].arena == 0 {
        var i :| i in w.words && w.words[i] == Tagged(a);
        TagRoundTrip(a);
        assert v.words[i] == Tagged(a);
      }
    }
    hide Kept, GoodLedgers;
    forall i <- v.words ensures Meanings(v)[i] == Meanings(w)[i] {
      assert w.mem.Reads(w.words[i]);
    }
  }

  lemma ConstructKeeps(w: World, id: nat, arena: nat)
    requires Good(w) && Allowed(w, Construct(id, arena))
    ensures Good(Step(w, Construct(id, arena)))
    ensures Meanings(Step(w, Construct(id, arena))) == MeaningStep(Meanings(w), Construct(id, arena))
  {
    var v := Step(w, Construct(id, arena));
    forall a: nat | a % 2 == 0 ensures Kept(v, a) {
      assert Kept(w, a);
      if a in v.mem.containers && v.mem.containers[a].arena == 0 {
        var i :| i in w.words && w.words[i] == Tagged(a);
        assert v.words[i] == Tagged(a);
      }
    }
    hide Kept, GoodLedgers;
    forall i <- v.words ensures Meanings(v)[i] == MeaningStep(Meanings(w), Construct(id, arena))[i] {
      assert i != id ==> w.mem.Reads(w.words[i]);
    }
  }

  /** Every operation does to the words' meanings what it would do to plain pairs: Swap exchanges the unknown
      fields alone, with a container on either side, both or none, whichever argument comes first. */
  lemma StepMeans(w: World, op: Op)
    requires Good(w) && Allowed(w, op)
    ensures Good(Step(w, op)) && Meanings(Step(w, op)) == MeaningStep(Meanings(w), op)
  {
    match op
    case Construct(id, arena) => ConstructKeeps(w, id, arena);
    case Change(id, fields) =>
      WithContainerKeeps(w, id);
      AssignKeeps(WithContainer(w, id), id, fields);
    case Swap(id, other, otherFirst) => SwapMeans(w, id, other, otherFirst);
    case Destruct(id) => DestructKeeps(w, id);
  }

  lemma SwapMeans(w: World, id: nat, other: nat, otherFirst: bool)
    requires Good(w) && id in w.words && other in w.words
    ensures var op := Swap(id, other, otherFirst);
            Good(Step(w, op)) && Meanings(Step(w, op)) == MeaningStep(Meanings(w), op)
  {
    if HaveUnknownFields(w.words[id]) || HaveUnknownFields(w.words[other]) {
      SwapContainers(w, id, other, otherFirst);
    } else {
      SwapNothing(w, id, other, otherFirst);
    }
  }

  lemma SwapContainers(w: World, id: nat, other: nat, otherFirst: bool)
    requires Good(w) && id in w.words && other in w.words
    requires HaveUnknownFields(w.words[id]) || HaveUnknownFields(w.words[other])
    ensures var op := Swap(id, other, otherFirst);
            Good(Step(w, op)) && Meanings(Step(w, op)) == MeaningStep(Meanings(w), op)
  {
    hide Good, Meanings, WithContainer, Exchange, HaveUnknownFields;
    var first, second := if otherFirst then other else id, if otherFirst then id else other;
    GoodFacts(w, first);
    WithContainerKeeps(w, first);
    var v := WithContainer(w, first);
    GoodFacts(v, second);
    WithContainerKeeps(v, second);
    ExchangeKeeps(WithContainer(v, second), id, other);
  }

  lemma GoodFacts(w: World, id: nat)
    requires Good(w) && id in w.words
    ensures w.mem.Reads(w.words[id]) && w.mem.next % 2 == 0
  {
  }

  lemma SwapNothing(w: World, id: nat, other: nat, otherFirst: bool)
    requires Good(w) && id in w.words && other in w.words
    requires !HaveUnknownFields(w.words[id]) && !HaveUnknownFields(w.words[other])
    ensures var op := Swap(id, other, otherFirst);
            Step(w, op) == w && Meanings(w) == MeaningStep(Meanings(w), op)
  {
    assert w.mem.Reads(w.words[id]) && w.mem.Reads(w.words[other]);
    assert Meanings(w)[id].fields == Meanings(w)[other].fields == [];
    hide GoodWords, GoodLedgers, Kept;
  }

  // ----- whole runs -----

  /** Every call of the run is one its caller is allowed at that moment. */
  ghost predicate AllowedRun(w: World, ops: seq<Op>)
    requires Good(w)
    decreases |ops|
  {
    ops == [] || (Allowed(w, ops[0]) && (StepMeans(w, ops[0]); AllowedRun(Step(w, ops[0]), ops[1..])))
  }

  ghost function Run(w: World, ops: seq<Op>): World
    requires Good(w) && AllowedRun(w, ops)
    decreases |ops|
  {
    if ops == [] then w
    else
      StepMeans(w, ops[0]);
      Run(Step(w, ops[0]), ops[1..])
  }

  lemma {:induction false} RunKeeps(w: World, ops: seq<Op>)
    requires Good(w) && AllowedRun(w, ops)
    ensures Good(Run(w, ops))
    ensures forall a: nat :: Run(w, ops).mem.deleted[a] <= 1
    decreases |ops|
  {
    if ops != [] {
      StepMeans(w, ops[0]);
      RunKeeps(Step(w, ops[0]), ops[1..]);
    }
  }

  /** However the word changes its form, its arena stays what the message was constructed with. */
  lemma {:induction false} ArenaConstant(w: World, ops: seq<Op>, id: nat)
    requires Good(w) && AllowedRun(w, ops) && id in w.words && Destruct(id) !in ops
    ensures Good(Run(w, ops)) && id in Run(w, ops).words
    ensures Meanings(Run(w, ops))[id].arena == Meanings(w)[id].arena
    decreases |ops|
  {
    if ops != [] {
      var v := Step(w, ops[0]);
      assert ops[0] in ops;
      StepMeans(w, ops[0]);
      StepKeepsArena(w, ops[0], id);
      hide Step, MeaningStep, Good, Meanings;
      ArenaConstant(v, ops[1..], id);
    }
  }

  lemma StepKeepsArena(w: World, op: Op, id: nat)
    requires Good(w) && Allowed(w, op) && id in w.words && op != Destruct(id)
    ensures Good(Step(w, op)) && id in Step(w, op).words && Meanings(Step(w, op))[id].arena == Meanings(w)[id].arena
  {
    hide Step, Good, Meanings;
    StepMeans(w, op);
    assert Step(w, op).words.Keys == Meanings(Step(w, op)).Keys;
  }

  ghost predicate InChargeOf(m: Memory, arena: nat, a: nat) {
    m.owned[(arena, a)] == 1 && forall k: nat | k != arena :: m.owned[(k, a)] == 0
  }

  /** Once every message is destructed, each container was deleted once or is in the charge of one arena. */
  lemma NothingLeaks(w: World, a: nat)
    requires Good(w) && w.words == map[] && IsAddress(w.mem, a)
    ensures (w.mem.deleted[a] == 1 && forall k: nat :: w.mem.owned[(k, a)] == 0)
         || (w.mem.deleted[a] == 0 && exists k: nat :: k != 0 && InChargeOf(w.mem, k, a))
  {
    assert Kept(w, a);
    if a in w.mem.containers {
      var k := w.mem.containers[a].arena;
      assert InChargeOf(w.mem, k, a);
    }
  }

  lemma StartIsGood()
    ensures Good(World(Memory(2, map[], multiset{}, multiset{}), map[]))
  {
  }

  // ----- the class -----

  /** Containers may have been created, and that is all. */
  predicate OnlyAdds(before: Memory, after: Memory) {
    after.deleted == before.deleted && before.next <= after.next && after.next % 2 == before.next % 2
    && (forall a <- before.containers :: a in after.containers && after.containers[a] == before.containers[a])
    && forall a <- after.containers :: a in before.containers || before.next <= a < after.next
  }

  class Heap {
    var mem: Memory

    constructor ()
      ensures mem == Memory(2, map[], multiset{}, multiset{})
    {
      mem := Memory(2, map[], multiset{}, multiset{});
    }

    /** UnknownFieldSet's Swap. */
    method SwapFields(a: nat, b: nat)
      requires a in mem.containers && b in mem.containers
      modifies this
      ensures mem == old(mem).Write(a, old(mem).containers[b].fields).Write(b, old(mem).containers[a].fields)
    {
      var fields := mem.containers[a].fields;
      mem := mem.Write(a, mem.containers[b].fields);
      mem := mem.Write(b, fields);
    }
  }

  class InternalMetadataWithArena {
    var ptr: nat

    constructor (arena: nat)
      ensures ptr == arena
    {
      ptr := arena;
    }

    /** The word leads somewhere in this heap. */
    ghost predicate Valid(heap: Heap)
      reads this, heap
    {
      heap.mem.Reads(ptr) && heap.mem.next % 2 == 0 && forall a <- heap.mem.containers :: a < heap.mem.next
    }

    method Destroy(heap: Heap)
      requires Valid(heap)
      modifies this, heap
      ensures heap.mem == Destroyed(old(heap.mem), old(ptr)) && ptr == 0
    {
      var arena := Arena(heap);
      if PtrTag(ptr) == TAG_CONTAINER && arena == 0 {
        heap.mem := heap.mem.Delete(PtrValue(ptr));
      }
      ptr := 0;
    }

    method UnknownFields(heap: Heap) returns (fields: UnknownFieldSet)
      requires Valid(heap)
      ensures fields == MeaningOf(heap.mem, ptr).fields
    {
      if PtrTag(ptr) == TAG_CONTAINER {
        fields := heap.mem.containers[PtrValue(ptr)].fields;
      } else {
        fields := [];
      }
    }

    method Arena(heap: Heap) returns (arena: nat)
      requires Valid(heap)
      ensures arena == MeaningOf(heap.mem, ptr).arena
    {
      if PtrTag(ptr) == TAG_CONTAINER {
        arena := heap.mem.containers[PtrValue(ptr)].arena;
      } else {
        arena := PtrValue(ptr);
      }
    }

    /** Returns the container whose unknown fields the caller may change. */
    method MutableUnknownFields(heap: Heap) returns (container: nat)
      requires Valid(heap)
      modifies this, heap
      ensures Valid(heap) && container in heap.mem.containers
      ensures HaveUnknownFields(ptr) && PtrValue(ptr) == container
      ensures (heap.mem, ptr) ==
        if HaveUnknownFields(old(ptr)) then (old(heap.mem), old(ptr)) else Created(old(heap.mem), old(ptr))
      ensures MeaningOf(heap.mem, ptr) == old(MeaningOf(heap.mem, ptr))
      ensures OnlyAdds(old(heap.mem), heap.mem)
      ensures old(HaveUnknownFields(ptr)) || container !in old(heap.mem.containers)
    {
      if PtrTag(ptr) == TAG_CONTAINER {
        container := PtrValue(ptr);
      } else {
        container := MutableUnknownFieldsSlow(heap);
        TagRoundTrip(container);
      }
    }

    method MutableUnknownFieldsSlow(heap: Heap) returns (container: nat)
      requires Valid(heap) && !HaveUnknownFields(ptr)
      modifies this, heap
      ensures (heap.mem, ptr) == Created(old(heap.mem), old(ptr))
      ensures container == old(heap.mem.next) && container in heap.mem.containers
    {
      var myArena := Arena(heap);
      container := heap.mem.next;
      heap.mem := heap.mem.Create(myArena);
      ptr := Tagged(container);
    }

    /** Exchanges the unknown fields; each side keeps its arena, and nothing else in the heap changes. */
    method Swap(other: InternalMetadataWithArena, heap: Heap, otherFirst: bool)
      requires Valid(heap) && other.Valid(heap)
      requires this != other && HaveUnknownFields(ptr) ==> ptr != other.ptr
      modifies this, other, heap
      ensures Valid(heap) && other.Valid(heap) && heap.mem.deleted == old(heap.mem.deleted)
      ensures MeaningOf(heap.mem, ptr) ==
        Meaning(old(heap.mem.Arena(ptr)), old(heap.mem.UnknownFields(other.ptr)))
      ensures MeaningOf(heap.mem, other.ptr) ==
        Meaning(old(heap.mem.Arena(other.ptr)), old(heap.mem.UnknownFields(ptr)))
      ensures forall a <- old(heap.mem.containers) | a != PtrValue(ptr) && a != PtrValue(other.ptr) ::
        a in heap.mem.containers && heap.mem.containers[a] == old(heap.mem.containers)[a]
      ensures !HaveUnknownFields(old(ptr)) && !HaveUnknownFields(old(other.ptr)) ==> heap.mem == old(heap.mem)
    {
      if PtrTag(ptr) == TAG_CONTAINER || PtrTag(other.ptr) == TAG_CONTAINER {
        var mine, others := Containers(other, heap, otherFirst);
        heap.SwapFields(mine, others);
      }
    }

    method Containers(other: InternalMetadataWithArena, heap: Heap, otherFirst: bool) returns (mine: nat, others: nat)
      requires Valid(heap) && other.Valid(heap)
      requires this != other && HaveUnknownFields(ptr) ==> ptr != other.ptr
      modifies this, other, heap
      ensures Valid(heap) && other.Valid(heap) && OnlyAdds(old(heap.mem), heap.mem)
      ensures HaveUnknownFields(ptr) && PtrValue(ptr) == mine && mine in heap.mem.containers
      ensures HaveUnknownFields(other.ptr) && PtrValue(other.ptr) == others && others in heap.mem.containers
      ensures mine == others <==> this == other
      ensures MeaningOf(heap.mem, ptr) == old(MeaningOf(heap.mem, ptr))
      ensures MeaningOf(heap.mem, other.ptr) == old(MeaningOf(heap.mem, other.ptr))
      ensures old(HaveUnknownFields(ptr)) ==> ptr == old(ptr)
      ensures old(HaveUnknownFields(other.ptr)) ==> other.ptr == old(other.ptr)
      ensures mine in old(heap.mem.containers) ==> HaveUnknownFields(old(ptr))
      ensures others in old(heap.mem.containers) ==> HaveUnknownFields(old(other.ptr))
    {
      if otherFirst {
        others := other.MutableUnknownFields(heap);
        mine := MutableUnknownFields(heap);
      } else {
        mine := MutableUnknownFields(heap);
        others := other.MutableUnknownFields(heap);
      }
    }
  }
}
