/** String fields that know whether they sit on an arena: the pointer is either the shared default string,
    a heap string the field answers for, or a string registered with the arena. The methods of the class
    work on a heap and an arena in place; the specification below follows any number of fields through a
    whole run and says at each moment who answers for which string. */
module ArenaString {
  import opened Basics

  /** 0 is NULL. */
  type Address = nat

  // ----- memory -----

  /** Strings below `first` are static defaults; heap strings are numbered from there on, never reused. */
  datatype Memory = Memory(first: Address, next: Address, text: map<Address, string>,
                           owned: multiset<(nat, Address)>, deleted: multiset<Address>)
  {
    function New(value: string): Memory {
      this.(next := next + 1, text := text[next := value])
    }

    /** Writing and deleting need a live string. */
    function Write(p: Address, value: string): Memory
      requires p in text
    {
      this.(text := text[p := value])
    }

    function Own(arena: Option<nat>, p: Address): Memory {
      if arena == None then this else this.(owned := owned + multiset{(arena.value, p)})
    }

    function Delete(p: Address): Memory
      requires p in text
    {
      this.(text := text - {p}, deleted := deleted + multiset{p})
    }
  }

  /** A field: its pointer, its default string, and the arena of its message. */
  datatype Field = Field(ptr: Address, def: Address, arena: Option<nat>)
  {
    predicate Unset() { ptr == def }
  }

  // ----- one operation on one field: the memory and pointer it leaves -----

  datatype Effect = Effect(mem: Memory, ptr: Address)

  function Create(m: Memory, arena: Option<nat>, value: string): Effect {
    Effect(m.New(value).Own(arena, m.next), m.next)
  }

  function AfterSet(m: Memory, f: Field, value: string): Effect
    requires f.ptr in m.text
  {
    if f.Unset() then Create(m, f.arena, value) else Effect(m.Write(f.ptr, value), f.ptr)
  }

  function AfterMutable(m: Memory, f: Field): Effect
    requires f.def in m.text
  {
    if f.Unset() then Create(m, f.arena, m.text[f.def]) else Effect(m, f.ptr)
  }

  /** What Release hands out, NULL when the field is unset, and the memory it leaves. */
  function Released(m: Memory, f: Field): Effect
    requires f.ptr in m.text
  {
    if f.Unset() then Effect(m, 0)
    else if f.arena != None then Effect(m.New(m.text[f.ptr]), m.next)
    else Effect(m, f.ptr)
  }

  function AfterDestroy(m: Memory, f: Field): Memory
    requires f.ptr in m.text
  {
    if f.arena == None && !f.Unset() then m.Delete(f.ptr) else m
  }

  function AfterSetAllocated(m: Memory, f: Field, p: Address): Effect
    requires f.ptr in m.text
  {
    var freed := AfterDestroy(m, f);
    if p != 0 then Effect(freed.Own(f.arena, p), p) else Effect(freed, f.def)
  }

  function AfterClear(m: Memory, f: Field, value: string): Memory
    requires f.ptr in m.text
  {
    if f.Unset() then m else m.Write(f.ptr, value)
  }

  // ----- any number of fields, and the caller -----

  datatype World = World(mem: Memory, fields: seq<Field>, caller: set<Address>)
  {
    function Put(i: nat, e: Effect): World
      requires i < |fields|
    {
      this.(mem := e.mem, fields := fields[i := fields[i].(ptr := e.ptr)])
    }
  }

  /** DestroyNoArena and the like are the same calls on a field without an arena, save that
      DestroyNoArena leaves NULL. NewString and DeleteString are the caller's own. */
  datatype Op =
    | Set(i: nat, value: string)
    | Mutable(i: nat, edit: string -> string) // and what the caller makes of the text through the pointer
    | Release(i: nat)
    | UnsafeArenaRelease(i: nat)
    | SetAllocated(i: nat, p: Address)
    | UnsafeArenaSetAllocated(i: nat, p: Address)
    | Swap(i: nat, j: nat)
    | Destroy(i: nat)
    | DestroyNoArena(i: nat)
    | ClearToEmpty(i: nat)
    | ClearToDefault(i: nat)
    | UnsafeSetDefault(i: nat)
    | NewString(value: string)
    | DeleteString(p: Address)

  predicate Alive(w: World, i: nat) {
    i < |w.fields| && w.fields[i].ptr != 0
  }

  /** Who answers for a string. */
  datatype Owner = ByField(i: nat) | ByArena(arena: nat) | ByCaller | ByNoOne // deleted

  /** How often an owner answers for a string. */
  function Shares(w: World, o: Owner, a: Address): nat {
    match o
    case ByField(i) =>
      if i < |w.fields| && w.fields[i].arena == None && w.fields[i].ptr == a && !w.fields[i].Unset() && a != 0
      then 1 else 0
    case ByArena(k) => w.mem.owned[(k, a)]
    case ByCaller => if a in w.caller then 1 else 0
    case ByNoOne => w.mem.deleted[a]
  }

  ghost predicate SoleOwner(w: World, o: Owner, a: Address) {
    Shares(w, o, a) == 1 && forall other: Owner | other != o :: Shares(w, other, a) == 0
  }

  predicate OnHeap(m: Memory, a: Address) {
    m.first <= a < m.next
  }

  /** A pointer to a string no field shows and the arena already answers for. */
  predicate Loose(w: World, arena: Option<nat>, p: Address) {
    arena != None && w.mem.owned[(arena.value, p)] > 0 && forall f <- w.fields :: f.ptr != p
  }

  /** What the comments ask of callers: a live field, strings of the caller's own, no mixing of arenas. */
  predicate Allowed(w: World, op: Op) {
    match op
    case SetAllocated(i, p) => Alive(w, i) && (p == 0 || p in w.caller)
    case UnsafeArenaSetAllocated(i, p) =>
      Alive(w, i) && w.fields[i].arena != None && (p == 0 || Loose(w, w.fields[i].arena, p))
    case Swap(i, j) =>
      Alive(w, i) && Alive(w, j) && w.fields[i].arena == w.fields[j].arena && w.fields[i].def == w.fields[j].def
    case DestroyNoArena(i) => Alive(w, i) && w.fields[i].arena == None
    case UnsafeSetDefault(i) =>
      i < |w.fields| && (w.fields[i].arena == None ==> w.fields[i].ptr == 0 || w.fields[i].Unset())
    case NewString(_) => true
    case DeleteString(p) => p in w.caller
    case _ => Alive(w, op.i)
  }

  function Step(w: World, op: Op): World
    requires Good(w) && Allowed(w, op)
  {
    OperandsLive(w, op);
    var m := w.mem;
    match op
    case Set(i, value) => w.Put(i, AfterSet(m, w.fields[i], value))
    case Mutable(i, edit) =>
      var e := AfterMutable(m, w.fields[i]);
      w.Put(i, Effect(e.mem.Write(e.ptr, edit(e.mem.text[e.ptr])), e.ptr))
    case Release(i) =>
      var e := Released(m, w.fields[i]);
      w.Put(i, Effect(e.mem, w.fields[i].def)).(caller := w.caller + (if e.ptr == 0 then {} else {e.ptr}))
    case UnsafeArenaRelease(i) =>
      var f := w.fields[i];
      w.Put(i, Effect(m, f.def)).(caller := w.caller + (if f.Unset() || f.arena != None then {} else {f.ptr}))
    case SetAllocated(i, p) => w.Put(i, AfterSetAllocated(m, w.fields[i], p)).(caller := w.caller - {p})
    case UnsafeArenaSetAllocated(i, p) => w.Put(i, Effect(m, if p != 0 then p else w.fields[i].def))
    case Swap(i, j) =>
      w.(fields := w.fields[i := w.fields[i].(ptr := w.fields[j].ptr)][j := w.fields[j].(ptr := w.fields[i].ptr)])
    case Destroy(i) => w.Put(i, Effect(AfterDestroy(m, w.fields[i]), w.fields[i].def))
    case DestroyNoArena(i) => w.Put(i, Effect(AfterDestroy(m, w.fields[i]), 0))
    case ClearToEmpty(i) => w.(mem := AfterClear(m, w.fields[i], ""))
    case ClearToDefault(i) => w.(mem := AfterClear(m, w.fields[i], m.text[w.fields[i].def]))
    case UnsafeSetDefault(i) => w.Put(i, Effect(m, w.fields[i].def))
    case NewString(value) => w.(mem := m.New(value), caller := w.caller + {m.next})
    case DeleteString(p) => w.(mem := m.Delete(p), caller := w.caller - {p})
  }

  // ----- what every run keeps -----

  /** The shape of one field: destroyed, unset, or showing a live heap string, its arena's if it has one. */
  predicate GoodField(m: Memory, f: Field) {
    0 < f.def < m.first
    && (f.ptr == 0 || f.Unset()
        || (OnHeap(m, f.ptr) && f.ptr in m.text && (f.arena != None ==> m.owned[(f.arena.value, f.ptr)] > 0)))
  }

  /** Static strings are live; heap strings are live until deleted. */
  ghost predicate LiveUnlessDeleted(m: Memory) {
    0 < m.first <= m.next
    && forall a: Address :: a in m.text <==> (0 < a < m.first || (OnHeap(m, a) && m.deleted[a] == 0))
  }

  /** Two fields show the same string only if it is the default of both. */
  predicate Apart(f: Field, g: Field) {
    f.ptr == g.ptr ==> f.ptr == 0 || (f.Unset() && g.Unset())
  }

  /** No two fields share a heap string. */
  predicate NoSharing(fields: seq<Field>) {
    forall i, j | 0 <= i < j < |fields| :: Apart(fields[i], fields[j])
  }

  ghost predicate Good(w: World) {
    LiveUnlessDeleted(w.mem)
    && (forall f <- w.fields :: GoodField(w.mem, f))
    && NoSharing(w.fields)
    && (forall a: Address, o: Owner | !OnHeap(w.mem, a) :: Shares(w, o, a) == 0)
    && (forall a: Address | OnHeap(w.mem, a) :: Owned(w, a))
  }

  /** Exactly one owner answers for the string, once. */
  ghost predicate Owned(w: World, a: Address) {
    exists o :: SoleOwner(w, o, a)
  }

  /** How an operation hands a string over. */
  function OwnerAfter(w: World, op: Op, a: Address, o: Owner): Owner
    requires Allowed(w, op)
  {
    match op
    case Release(i) => if o == ByField(i) then ByCaller else o
    case UnsafeArenaRelease(i) => if o == ByField(i) then ByCaller else o
    case SetAllocated(i, p) =>
      if o == ByField(i) then ByNoOne else if a == p then HomeOf(w, i) else o
    case Swap(i, j) => if o == ByField(i) then ByField(j) else if o == ByField(j) then ByField(i) else o
    case Destroy(i) => if o == ByField(i) then ByNoOne else o
    case DestroyNoArena(i) => if o == ByField(i) then ByNoOne else o
    case DeleteString(p) => if a == p then ByNoOne else o
    case _ => o
  }

  /** Who answers for the strings a field shows. */
  function HomeOf(w: World, i: nat): Owner
    requires i < |w.fields|
  {
    if w.fields[i].arena == None then ByField(i) else ByArena(w.fields[i].arena.value)
  }

  /** Who gets the string an operation allocates. */
  function OwnerOfNew(w: World, op: Op): Owner {
    if (op.Set? || op.Mutable?) && op.i < |w.fields| then HomeOf(w, op.i) else ByCaller
  }

  lemma FieldShape(w: World, i: nat)
    requires Good(w) && i < |w.fields|
    ensures GoodField(w.mem, w.fields[i]) && 0 < w.mem.first <= w.mem.next
  {
  }

  lemma LiveField(w: World, i: nat)
    requires Good(w) && Alive(w, i)
    ensures w.fields[i].ptr in w.mem.text && w.fields[i].def in w.mem.text && w.mem.next !in w.mem.text
  {
    FieldShape(w, i);
  }

  /** So no operation reads, writes or deletes a dead string. */
  lemma OperandsLive(w: World, op: Op)
    requires Good(w) && Allowed(w, op)
    ensures OnField(op) ==> GoodField(w.mem, w.fields[op.i]) && w.fields[op.i].def in w.mem.text
    ensures OnField(op) && !op.UnsafeSetDefault? ==> w.fields[op.i].ptr in w.mem.text
    ensures op.DeleteString? ==> op.p in w.mem.text
  {
    if OnField(op) { FieldShape(w, op.i); }
    if op.DeleteString? {
      assert Shares(w, ByCaller, op.p) == 1;
      assert Owned(w, op.p);
      assert Shares(w, ByNoOne, op.p) == 0;
    }
  }

  predicate OnField(op: Op) {
    !op.NewString? && !op.DeleteString?
  }

  predicate Touches(op: Op, j: nat) {
    OnField(op) && (op.i == j || (op.Swap? && op.j == j))
  }

  // ----- an operation's effect on memory, address by address -----

  predicate Allocates(w: World, op: Op)
    requires Allowed(w, op)
  {
    match op
    case Set(i, _) => w.fields[i].Unset()
    case Mutable(i, _) => w.fields[i].Unset()
    case Release(i) => !w.fields[i].Unset() && w.fields[i].arena != None
    case NewString(_) => true
    case _ => false
  }

  /** The string the operation deletes, or NULL. */
  function Frees(w: World, op: Op): Address
    requires Allowed(w, op)
  {
    match op
    case SetAllocated(i, _) => if w.fields[i].arena == None && !w.fields[i].Unset() then w.fields[i].ptr else 0
    case Destroy(i) => if w.fields[i].arena == None && !w.fields[i].Unset() then w.fields[i].ptr else 0
    case DestroyNoArena(i) => if !w.fields[i].Unset() then w.fields[i].ptr else 0
    case DeleteString(p) => p
    case _ => 0
  }

  /** The string the operation writes to, or NULL. */
  function Writes(w: World, op: Op): Address
    requires Allowed(w, op)
  {
    if (op.Set? || op.Mutable? || op.ClearToEmpty? || op.ClearToDefault?) && !w.fields[op.i].Unset()
    then w.fields[op.i].ptr else 0
  }

  /** The string the operation registers with its field's arena, or NULL. */
  function Registers(w: World, op: Op): Address
    requires Allowed(w, op)
  {
    match op
    case Set(i, _) => if w.fields[i].Unset() && w.fields[i].arena != None then w.mem.next else 0
    case Mutable(i, _) => if w.fields[i].Unset() && w.fields[i].arena != None then w.mem.next else 0
    case SetAllocated(i, p) => if w.fields[i].arena != None then p else 0
    case _ => 0
  }

  /** What is live afterwards. */
  lemma LiveStringsAfter(w: World, op: Op, a: Address)
    requires Good(w) && Allowed(w, op)
    ensures a in Step(w, op).mem.text <==>
              (a in w.mem.text && a != Frees(w, op)) || (Allocates(w, op) && a == w.mem.next)
  {
    OperandsLive(w, op);
    hide Good, Loose;
  }

  /** Only the string written to has another text. */
  lemma OtherTextsAfter(w: World, op: Op, a: Address)
    requires Good(w) && Allowed(w, op) && a in w.mem.text && a in Step(w, op).mem.text
    requires a != w.mem.next && a != Writes(w, op)
    ensures Step(w, op).mem.text[a] == w.mem.text[a]
  {
    OperandsLive(w, op);
    hide Good, Loose;
  }

  lemma TextAfter(w: World, op: Op, a: Address)
    requires Good(w) && Allowed(w, op)
    ensures var m, n := w.mem, Step(w, op).mem;
            && (a in n.text <==> (a in m.text && a != Frees(w, op)) || (Allocates(w, op) && a == m.next))
            && (a in m.text && a in n.text && a != m.next && a != Writes(w, op) ==> n.text[a] == m.text[a])
  {
    LiveStringsAfter(w, op, a);
    hide *;
    if a in w.mem.text && a in Step(w, op).mem.text && a != w.mem.next && a != Writes(w, op) {
      OtherTextsAfter(w, op, a);
    }
  }

  lemma DeletedAfter(w: World, op: Op, a: Address)
    requires Good(w) && Allowed(w, op)
    ensures var m, n := w.mem, Step(w, op).mem;
            n.deleted[a] == m.deleted[a] + (if a != 0 && a == Frees(w, op) then 1 else 0)
  {
    OperandsShape(w, op);
    hide Good, Loose;
  }

  lemma RegistersOrNot(w: World, op: Op)
    requires Good(w) && Allowed(w, op) && !op.Set? && !op.Mutable? && !op.SetAllocated?
    ensures Step(w, op).mem.owned == w.mem.owned && Registers(w, op) == 0
  {
    hide Good, Loose;
  }

  lemma Registered(w: World, op: Op, a: Address, k: nat)
    requires Good(w) && Allowed(w, op) && (op.Set? || op.Mutable? || op.SetAllocated?)
    ensures Step(w, op).mem.owned[(k, a)] == w.mem.owned[(k, a)]
              + (if a != 0 && a == Registers(w, op) && w.fields[op.i].arena == Some(k) then 1 else 0)
  {
    FieldShape(w, op.i);
    hide Good, Loose;
  }

  lemma OwnedByArenaAfter(w: World, op: Op, a: Address, k: nat)
    requires Good(w) && Allowed(w, op)
    ensures var m, n := w.mem, Step(w, op).mem;
            n.owned[(k, a)] == m.owned[(k, a)]
              + (if a != 0 && a == Registers(w, op) && w.fields[op.i].arena == Some(k) then 1 else 0)
  {
    hide Good, Step, Registers, Allowed;
    if op.Set? || op.Mutable? || op.SetAllocated? { Registered(w, op, a, k); } else { RegistersOrNot(w, op); }
  }

  lemma NextAfter(w: World, op: Op)
    requires Good(w) && Allowed(w, op)
    ensures var m, n := w.mem, Step(w, op).mem;
            n.first == m.first && n.next == m.next + (if Allocates(w, op) then 1 else 0)
  {
    hide Good, Loose;
  }

  lemma LedgersAfter(w: World, op: Op, a: Address, k: nat)
    requires Good(w) && Allowed(w, op)
    ensures var m, n := w.mem, Step(w, op).mem;
            && n.first == m.first && n.next == m.next + (if Allocates(w, op) then 1 else 0)
            && n.deleted[a] == m.deleted[a] + (if a != 0 && a == Frees(w, op) then 1 else 0)
            && n.owned[(k, a)] == m.owned[(k, a)]
                 + (if a != 0 && a == Registers(w, op) && w.fields[op.i].arena == Some(k) then 1 else 0)
  {
    NextAfter(w, op);
    DeletedAfter(w, op, a);
    OwnedByArenaAfter(w, op, a, k);
    hide *;
  }

  /** What is freed or written is a live heap string. */
  lemma EffectsOnHeap(w: World, op: Op)
    requires Good(w) && Allowed(w, op)
    ensures Frees(w, op) == 0 || (OnHeap(w.mem, Frees(w, op)) && w.mem.deleted[Frees(w, op)] == 0)
    ensures Writes(w, op) == 0 || OnHeap(w.mem, Writes(w, op))
    ensures Registers(w, op) == 0 || OnHeap(w.mem, Registers(w, op))
      || (Allocates(w, op) && Registers(w, op) == w.mem.next)
  {
    OperandsShape(w, op);
    hide Good;
  }

  /** The other fields are left as they were. */
  lemma OtherFieldSame(w: World, op: Op, j: nat)
    requires Good(w) && Allowed(w, op) && j < |w.fields| && !Touches(op, j)
    ensures j < |Step(w, op).fields| && Step(w, op).fields[j] == w.fields[j]
    ensures w.fields[j].ptr == 0 || w.fields[j].Unset()
      || (w.fields[j].ptr != Frees(w, op) && w.fields[j].ptr != Writes(w, op))
  {
    FieldShape(w, j);
    if OnField(op) { FieldShape(w, op.i); FieldsApart(w, op.i, j); }
    if op.DeleteString? { NotShown(w, op.p, j); }
    hide Good;
  }

  /** The shares an operation can touch, for a string with the sole owner o. */
  lemma OldShares(w: World, op: Op, a: Address, o: Owner, x: Owner)
    requires Good(w) && Allowed(w, op) && SoleOwner(w, o, a)
    ensures Shares(w, x, a) == if x == o then 1 else 0
    ensures Shares(w, ByCaller, a) == if o == ByCaller then 1 else 0
    ensures OnField(op) ==> GoodField(w.mem, w.fields[op.i])
    ensures OnField(op) ==> Shares(w, ByField(op.i), a) == if o == ByField(op.i) then 1 else 0
    ensures op.Swap? ==> GoodField(w.mem, w.fields[op.j])
    ensures op.Swap? ==> Shares(w, ByField(op.j), a) == if o == ByField(op.j) then 1 else 0
  {
  }

  lemma FieldShareMoves(w: World, op: Op, a: Address, o: Owner, x: Owner)
    requires Good(w) && Allowed(w, op) && OnHeap(w.mem, a) && SoleOwner(w, o, a) && x.ByField?
    ensures Shares(Step(w, op), x, a) == if x == OwnerAfter(w, op, a, o) then 1 else 0
  {
    hide Good, SoleOwner;
    OldShares(w, op, a, o, x);
  }

  lemma CallerShareMoves(w: World, op: Op, a: Address, o: Owner)
    requires Good(w) && Allowed(w, op) && OnHeap(w.mem, a) && SoleOwner(w, o, a)
    ensures Shares(Step(w, op), ByCaller, a) == if ByCaller == OwnerAfter(w, op, a, o) then 1 else 0
  {
    hide Good, SoleOwner;
    OldShares(w, op, a, o, ByCaller);
  }

  lemma LedgerShareMoves(w: World, op: Op, a: Address, o: Owner, x: Owner)
    requires Good(w) && Allowed(w, op) && OnHeap(w.mem, a) && SoleOwner(w, o, a) && (x.ByArena? || x.ByNoOne?)
    ensures Shares(Step(w, op), x, a) == if x == OwnerAfter(w, op, a, o) then 1 else 0
  {
    OldShares(w, op, a, o, x);
    LedgersAfter(w, op, a, if x.ByArena? then x.arena else 0);
    hide Good, SoleOwner, Step;
  }

  /** Every operation hands strings over exactly as OwnerAfter says. */
  lemma StepMovesOwner(w: World, op: Op, a: Address, o: Owner)
    requires Good(w) && Allowed(w, op) && OnHeap(w.mem, a) && SoleOwner(w, o, a)
    ensures SoleOwner(Step(w, op), OwnerAfter(w, op, a, o), a)
  {
    hide Good, Step, Shares, OwnerAfter;
    forall x: Owner ensures Shares(Step(w, op), x, a) == if x == OwnerAfter(w, op, a, o) then 1 else 0 {
      if x.ByField? { FieldShareMoves(w, op, a, o, x); }
      else if x.ByCaller? { CallerShareMoves(w, op, a, o); }
      else { LedgerShareMoves(w, op, a, o, x); }
    }
  }

  lemma NewFieldOwner(w: World, op: Op, a: Address, x: Owner)
    requires Good(w) && Allowed(w, op) && !OnHeap(w.mem, a) && x.ByField?
    ensures Shares(Step(w, op), x, a) == if OnHeap(Step(w, op).mem, a) && x == OwnerOfNew(w, op) then 1 else 0
  {
    if Touches(op, x.i) { NewOperandOwner(w, op, a, x); } else { NewBystander(w, op, a, x); }
  }

  lemma NewOperandOwner(w: World, op: Op, a: Address, x: Owner)
    requires Good(w) && Allowed(w, op) && !OnHeap(w.mem, a) && x.ByField? && Touches(op, x.i)
    ensures Shares(Step(w, op), x, a) == if OnHeap(Step(w, op).mem, a) && x == OwnerOfNew(w, op) then 1 else 0
  {
    hide Good, Loose;
    NoShares(w, a, x);
    OperandsShape(w, op);
  }

  lemma NewBystander(w: World, op: Op, a: Address, x: Owner)
    requires Good(w) && Allowed(w, op) && !OnHeap(w.mem, a) && x.ByField? && !Touches(op, x.i)
    ensures Shares(Step(w, op), x, a) == 0 && x != OwnerOfNew(w, op)
  {
    NoShares(w, a, x);
    SameFields(w, op);
    if x.i < |w.fields| { OtherFieldSame(w, op, x.i); }
    hide Good, Step, Allowed, Frees, Writes;
  }

  lemma NewCallerOwner(w: World, op: Op, a: Address)
    requires Good(w) && Allowed(w, op) && !OnHeap(w.mem, a)
    ensures Shares(Step(w, op), ByCaller, a) ==
            if OnHeap(Step(w, op).mem, a) && ByCaller == OwnerOfNew(w, op) then 1 else 0
  {
    hide Good;
    NoShares(w, a, ByCaller);
    OperandsShape(w, op);
  }

  lemma NewLedgerOwner(w: World, op: Op, a: Address, x: Owner)
    requires Good(w) && Allowed(w, op) && !OnHeap(w.mem, a) && (x.ByArena? || x.ByNoOne?)
    ensures Shares(Step(w, op), x, a) == if OnHeap(Step(w, op).mem, a) && x == OwnerOfNew(w, op) then 1 else 0
  {
    NoShares(w, a, x);
    EffectsOnHeap(w, op);
    LedgersAfter(w, op, a, if x.ByArena? then x.arena else 0);
    assert LiveUnlessDeleted(w.mem);
    hide Good, Step;
  }

  /** What an operation may rely on: its fields have their shape, and its string is the caller's own. */
  lemma OperandsShape(w: World, op: Op)
    requires Good(w) && Allowed(w, op)
    ensures LiveUnlessDeleted(w.mem)
    ensures OnField(op) ==> GoodField(w.mem, w.fields[op.i])
    ensures op.Swap? ==> GoodField(w.mem, w.fields[op.j])
    ensures TakesString(op) && (op.p != 0 || op.DeleteString?) ==> OnHeap(w.mem, op.p) && op.p in w.mem.text
  {
    assert LiveUnlessDeleted(w.mem);
    hide Good, LiveUnlessDeleted;
    if OnField(op) { FieldShape(w, op.i); }
    if op.Swap? { FieldShape(w, op.j); }
    if op.SetAllocated? || op.DeleteString? { CallersString(w, op.p); }
    if op.UnsafeArenaSetAllocated? && op.p != 0 { ArenasString(w, w.fields[op.i].arena.value, op.p); }
  }

  predicate TakesString(op: Op) {
    op.SetAllocated? || op.UnsafeArenaSetAllocated? || op.DeleteString?
  }

  lemma ArenasString(w: World, k: nat, p: Address)
    requires Good(w)
    ensures w.mem.owned[(k, p)] > 0 ==> OnHeap(w.mem, p) && p in w.mem.text
  {
    if w.mem.owned[(k, p)] > 0 {
      assert Shares(w, ByArena(k), p) > 0;
      assert Owned(w, p);
      assert Shares(w, ByNoOne, p) == 0;
    }
  }

  lemma NoShares(w: World, a: Address, x: Owner)
    requires Good(w) && !OnHeap(w.mem, a)
    ensures Shares(w, x, a) == 0
  {
  }

  /** What the caller answers for is live, on the heap, and shown by no field. */
  lemma CallersString(w: World, p: Address)
    requires Good(w)
    ensures p in w.caller ==> OnHeap(w.mem, p) && p in w.mem.text && p != 0 && forall f <- w.fields :: f.ptr != p
  {
    if p in w.caller {
      assert Shares(w, ByCaller, p) == 1;
      assert Owned(w, p);
      assert Shares(w, ByNoOne, p) == 0;
      forall j | 0 <= j < |w.fields| ensures w.fields[j].ptr != p {
        FieldShape(w, j);
        assert Shares(w, ByField(j), p) == 0;
        if w.fields[j].arena != None { assert Shares(w, ByArena(w.fields[j].arena.value), p) == 0; }
      }
    }
  }

  /** A string that was not on the heap has an owner afterwards only if the operation allocated it. */
  lemma ShareOfNew(w: World, op: Op, a: Address, x: Owner)
    requires Good(w) && Allowed(w, op) && !OnHeap(w.mem, a)
    ensures Shares(Step(w, op), x, a) == if OnHeap(Step(w, op).mem, a) && x == OwnerOfNew(w, op) then 1 else 0
  {
    if x.ByField? { NewFieldOwner(w, op, a, x); }
    else if x.ByCaller? { NewCallerOwner(w, op, a); }
    else { NewLedgerOwner(w, op, a, x); }
  }

  lemma LiveAfter(w: World, op: Op, a: Address)
    requires Good(w) && Allowed(w, op)
    ensures var m := Step(w, op).mem;
            && 0 < m.first <= m.next
            && (a in m.text <==> (0 < a < m.first || (OnHeap(m, a) && m.deleted[a] == 0)))
  {
    if !OnHeap(w.mem, a) { NoShares(w, a, ByNoOne); }
    TextAfter(w, op, a);
    LedgersAfter(w, op, a, 0);
    EffectsOnHeap(w, op);
    assert LiveUnlessDeleted(w.mem);
    hide Good, Step, Allowed, Frees, Allocates, Writes;
  }

  lemma FieldStaysGood(w: World, op: Op, j: nat)
    requires Good(w) && Allowed(w, op) && j < |w.fields|
    ensures GoodField(Step(w, op).mem, Step(w, op).fields[j])
  {
    if Touches(op, j) {
      OperandStaysGood(w, op, j);
    } else {
      OtherFieldStaysGood(w, op, j);
    }
  }

  lemma OperandStaysGood(w: World, op: Op, j: nat)
    requires Good(w) && Allowed(w, op) && Touches(op, j)
    ensures GoodField(Step(w, op).mem, Step(w, op).fields[j])
  {
    if op.Swap? || TakesString(op) { ReceiverStaysGood(w, op, j); } else { LoneOperandStaysGood(w, op, j); }
  }

  lemma ReceiverStaysGood(w: World, op: Op, j: nat)
    requires Good(w) && Allowed(w, op) && Touches(op, j) && (op.Swap? || TakesString(op))
    ensures GoodField(Step(w, op).mem, Step(w, op).fields[j])
  {
    hide Good;
    OperandsShape(w, op);
    if op.SetAllocated? { NotShown(w, op.p, j); }
  }

  lemma LoneOperandStaysGood(w: World, op: Op, j: nat)
    requires Good(w) && Allowed(w, op) && Touches(op, j) && !op.Swap? && !TakesString(op)
    ensures GoodField(Step(w, op).mem, Step(w, op).fields[j])
  {
    hide Good;
    OperandsShape(w, op);
  }

  lemma OtherFieldStaysGood(w: World, op: Op, j: nat)
    requires Good(w) && Allowed(w, op) && j < |w.fields| && !Touches(op, j)
    ensures GoodField(Step(w, op).mem, Step(w, op).fields[j])
  {
    FieldShape(w, j);
    OtherFieldSame(w, op, j);
    TextAfter(w, op, w.fields[j].ptr);
    LedgersAfter(w, op, w.fields[j].ptr, if w.fields[j].arena == None then 0 else w.fields[j].arena.value);
    hide Good, Step, Allowed, Frees, Allocates, Writes, Registers;
  }

  lemma FieldsApart(w: World, i: nat, j: nat)
    requires Good(w) && i < |w.fields| && j < |w.fields| && i != j
    ensures Apart(w.fields[i], w.fields[j])
  {
  }

  lemma NotShown(w: World, p: Address, j: nat)
    requires Good(w) && j < |w.fields|
    ensures p in w.caller ==> w.fields[j].ptr != p
  {
    CallersString(w, p);
    assert w.fields[j] in w.fields;
  }

  /** The string an operation puts into field i is no other field's. */
  lemma FieldsStayApart(w: World, op: Op, j: nat, k: nat)
    requires Good(w) && Allowed(w, op) && j < |w.fields| && k < |w.fields| && j != k
    ensures Apart(Step(w, op).fields[j], Step(w, op).fields[k])
  {
    if op.Swap? { SwappedStayApart(w, op, j, k); } else { OthersStayApart(w, op, j, k); }
  }

  lemma SwappedStayApart(w: World, op: Op, j: nat, k: nat)
    requires Good(w) && Allowed(w, op) && op.Swap? && j < |w.fields| && k < |w.fields| && j != k
    ensures Apart(Step(w, op).fields[j], Step(w, op).fields[k])
  {
    hide Good;
    FieldsApart(w, j, k);
    if op.i != j { FieldsApart(w, op.i, j); }
    if op.i != k { FieldsApart(w, op.i, k); }
    if op.j != j { FieldsApart(w, op.j, j); }
    if op.j != k { FieldsApart(w, op.j, k); }
  }

  lemma OthersStayApart(w: World, op: Op, j: nat, k: nat)
    requires Good(w) && Allowed(w, op) && !op.Swap? && j < |w.fields| && k < |w.fields| && j != k
    ensures Apart(Step(w, op).fields[j], Step(w, op).fields[k])
  {
    hide Good;
    OperandsShape(w, op);
    FieldsApart(w, j, k);
    FieldShape(w, j);
    FieldShape(w, k);
    if op.SetAllocated? { NotShown(w, op.p, j); NotShown(w, op.p, k); }
  }

  /** Every operation the callers are allowed keeps all of it. */
  lemma StepKeeps(w: World, op: Op)
    requires Good(w) && Allowed(w, op)
    ensures Good(Step(w, op))
  {
    LiveUnlessDeletedAfter(w, op);
    AllOwnedAfter(w, op);
    NothingElseOwned(w, op);
    forall j | 0 <= j < |w.fields| ensures GoodField(Step(w, op).mem, Step(w, op).fields[j]) {
      FieldStaysGood(w, op, j);
    }
    forall j, k | 0 <= j < k < |w.fields| ensures Apart(Step(w, op).fields[j], Step(w, op).fields[k]) {
      FieldsStayApart(w, op, j, k);
    }
    SameFields(w, op);
    hide Step, Allowed, GoodField, Apart, LiveUnlessDeleted, Owned;
  }

  lemma SameFields(w: World, op: Op)
    requires Good(w) && Allowed(w, op)
    ensures |Step(w, op).fields| == |w.fields|
    ensures forall i | 0 <= i < |w.fields| ::
      Step(w, op).fields[i].def == w.fields[i].def && Step(w, op).fields[i].arena == w.fields[i].arena
    ensures w.mem.next <= Step(w, op).mem.next && Step(w, op).mem.first == w.mem.first
  {
  }

  lemma LiveUnlessDeletedAfter(w: World, op: Op)
    requires Good(w) && Allowed(w, op)
    ensures LiveUnlessDeleted(Step(w, op).mem)
  {
    hide Good, Step, Allowed, OnHeap;
    LiveAfter(w, op, 0);
    forall a: Address ensures a in Step(w, op).mem.text <==>
      (0 < a < Step(w, op).mem.first || (OnHeap(Step(w, op).mem, a) && Step(w, op).mem.deleted[a] == 0))
    { LiveAfter(w, op, a); }
  }

  lemma AllOwnedAfter(w: World, op: Op)
    requires Good(w) && Allowed(w, op)
    ensures forall a: Address | OnHeap(Step(w, op).mem, a) :: Owned(Step(w, op), a)
  {
    forall a: Address | OnHeap(Step(w, op).mem, a) ensures Owned(Step(w, op), a) {
      OwnedAfter(w, op, a);
    }
  }

  lemma OwnedAfter(w: World, op: Op, a: Address)
    requires Good(w) && Allowed(w, op) && OnHeap(Step(w, op).mem, a)
    ensures Owned(Step(w, op), a)
  {
    if OnHeap(w.mem, a) {
      assert Owned(w, a);
      hide Good, Step, OwnerAfter, Shares;
      var o :| SoleOwner(w, o, a);
      StepMovesOwner(w, op, a, o);
    } else {
      hide Good, Step, OwnerOfNew, Shares;
      forall x: Owner ensures Shares(Step(w, op), x, a) == if x == OwnerOfNew(w, op) then 1 else 0 {
        ShareOfNew(w, op, a, x);
      }
      assert SoleOwner(Step(w, op), OwnerOfNew(w, op), a);
    }
  }

  lemma NothingElseOwned(w: World, op: Op)
    requires Good(w) && Allowed(w, op)
    ensures forall a: Address, o: Owner | !OnHeap(Step(w, op).mem, a) :: Shares(Step(w, op), o, a) == 0
  {
    SameFields(w, op);
    hide Good, Step, Allowed, OwnerOfNew, Shares;
    forall a: Address, o: Owner | !OnHeap(Step(w, op).mem, a) ensures Shares(Step(w, op), o, a) == 0 {
      ShareOfNew(w, op, a, o);
    }
  }

  // ----- whole runs -----

  function Fresh(first: Address, defaults: map<Address, string>): Memory {
    Memory(first, first, defaults, multiset{}, multiset{})
  }

  /** Fields start unset, with nothing on the heap. */
  lemma StartIsGood(first: Address, defaults: map<Address, string>, fields: seq<Field>)
    requires 0 < first && forall a: Address :: a in defaults <==> 0 < a < first
    requires forall f <- fields :: 0 < f.def < first && f.Unset()
    ensures Good(World(Fresh(first, defaults), fields, {}))
  {
  }

  /** Every call of the run is one its caller is allowed at that moment. */
  ghost predicate AllowedRun(w: World, ops: seq<Op>)
    requires Good(w)
    decreases |ops|
  {
    ops == [] || (Allowed(w, ops[0]) && (StepKeeps(w, ops[0]); AllowedRun(Step(w, ops[0]), ops[1..])))
  }

  ghost function Run(w: World, ops: seq<Op>): World
    requires Good(w) && AllowedRun(w, ops)
    decreases |ops|
  {
    if ops == [] then w
    else
      StepKeeps(w, ops[0]);
      Run(Step(w, ops[0]), ops[1..])
  }

  /** Every run keeps exactly one owner for every string, deletes none twice, and leaves the defaults alone. */
  lemma {:induction false} RunKeeps(w: World, ops: seq<Op>)
    requires Good(w) && AllowedRun(w, ops)
    ensures Good(Run(w, ops))
    ensures forall a: Address :: Run(w, ops).mem.deleted[a] <= 1
    ensures forall a: Address | 0 < a < w.mem.first ::
      Run(w, ops).mem.deleted[a] == 0 && a in w.mem.text && a in Run(w, ops).mem.text
      && Run(w, ops).mem.text[a] == w.mem.text[a]
    decreases |ops|
  {
    if ops == [] {
      forall a: Address ensures w.mem.deleted[a] <= 1 { DeletedAtMostOnce(w, a); }
      forall a: Address | 0 < a < w.mem.first ensures a in w.mem.text && w.mem.deleted[a] == 0 {
        NoShares(w, a, ByNoOne);
      }
    } else {
      StepKeeps(w, ops[0]);
      SameFields(w, ops[0]);
      DefaultsKept(w, ops[0]);
      RunKeeps(Step(w, ops[0]), ops[1..]);
    }
  }

  lemma DeletedAtMostOnce(w: World, a: Address)
    requires Good(w)
    ensures w.mem.deleted[a] <= 1
  {
    assert Shares(w, ByNoOne, a) == w.mem.deleted[a];
    if OnHeap(w.mem, a) { assert Owned(w, a); }
  }

  lemma DefaultsKept(w: World, op: Op)
    requires Good(w) && Allowed(w, op)
    ensures forall a: Address | 0 < a < w.mem.first ::
      a in w.mem.text && a in Step(w, op).mem.text && Step(w, op).mem.text[a] == w.mem.text[a]
  {
    EffectsOnHeap(w, op);
    assert LiveUnlessDeleted(w.mem);
    hide Good, Step, Allowed, Frees, Allocates, Writes;
    forall a: Address | 0 < a < w.mem.first
      ensures a in w.mem.text && a in Step(w, op).mem.text && Step(w, op).mem.text[a] == w.mem.text[a]
    {
      TextAfter(w, op, a);
    }
  }

  ghost predicate InChargeOf(m: Memory, arena: nat, a: Address) {
    m.owned[(arena, a)] == 1 && forall k: nat | k != arena :: m.owned[(k, a)] == 0
  }

  /** Once the fields off the arenas are unset and the caller holds nothing, no string is left over: each
      was deleted once, or exactly one arena still deletes it once. */
  lemma NothingLeaks(w: World, a: Address)
    requires Good(w) && OnHeap(w.mem, a) && w.caller == {}
    requires forall f <- w.fields :: f.arena == None ==> f.ptr == 0 || f.Unset()
    ensures (w.mem.deleted[a] == 1 && forall k: nat :: w.mem.owned[(k, a)] == 0)
         || (w.mem.deleted[a] == 0 && exists k: nat :: InChargeOf(w.mem, k, a))
  {
    assert Owned(w, a);
    var o :| SoleOwner(w, o, a);
    assert !o.ByField? && !o.ByCaller?;
    assert forall k: nat :: Shares(w, ByArena(k), a) == w.mem.owned[(k, a)];
    assert Shares(w, ByNoOne, a) == w.mem.deleted[a];
    if o.ByArena? { assert InChargeOf(w.mem, o.arena, a); }
  }

  // ----- what the fields show -----

  /** A field as its user sees it. */
  datatype Value = Gone | Default | Is(text: string)

  function Shown(m: Memory, f: Field): Value {
    if f.ptr == 0 then Gone else if f.Unset() then Default
    else if f.ptr in m.text then Is(m.text[f.ptr]) else Gone
  }

  function Values(w: World): (vs: seq<Value>)
    ensures |vs| == |w.fields| && forall i | 0 <= i < |vs| :: vs[i] == Shown(w.mem, w.fields[i])
  {
    seq(|w.fields|, i requires 0 <= i < |w.fields| => Shown(w.mem, w.fields[i]))
  }

  /** A call as the user sees it: the text of the string passed in, and of the default. */
  datatype Call = Call(op: Op, passed: Option<string>, def: string)

  function CallOf(w: World, op: Op): Call {
    Call(op,
         if TakesString(op) && op.p in w.mem.text then Some(w.mem.text[op.p]) else None,
         if OnField(op) && op.i < |w.fields| && w.fields[op.i].def in w.mem.text
         then w.mem.text[w.fields[op.i].def] else "")
  }

  /** The text a user reads off a field. */
  function ReadAs(v: Value, def: string): string {
    match v
    case Is(text) => text
    case _ => def
  }

  /** The operations on plain optional strings: no pointers, no sharing. */
  function ValueStep(vs: seq<Value>, c: Call): (after: seq<Value>)
    requires (OnField(c.op) ==> c.op.i < |vs|) && (c.op.Swap? ==> c.op.j < |vs|)
    ensures |after| == |vs|
  {
    match c.op
    case Set(i, value) => vs[i := Is(value)]
    case Mutable(i, edit) => vs[i := Is(edit(ReadAs(vs[i], c.def)))]
    case SetAllocated(i, _) => vs[i := if c.passed == None then Default else Is(c.passed.value)]
    case UnsafeArenaSetAllocated(i, _) => vs[i := if c.passed == None then Default else Is(c.passed.value)]
    case Swap(i, j) => vs[i := vs[j]][j := vs[i]]
    case DestroyNoArena(i) => vs[i := Gone]
    case ClearToEmpty(i) => vs[i := if vs[i].Is? then Is("") else vs[i]]
    case ClearToDefault(i) => vs[i := if vs[i].Is? then Is(c.def) else vs[i]]
    case NewString(_) => vs
    case DeleteString(_) => vs
    case _ => vs[c.op.i := Default]
  }

  lemma OperandShows(w: World, op: Op, j: nat)
    requires Good(w) && Allowed(w, op) && Touches(op, j)
    ensures Shown(Step(w, op).mem, Step(w, op).fields[j]) == ValueStep(Values(w), CallOf(w, op))[j]
  {
    hide Good;
    OperandsShape(w, op);
    if op.SetAllocated? { NotShown(w, op.p, j); }
  }

  lemma OtherFieldShows(w: World, op: Op, j: nat)
    requires Good(w) && Allowed(w, op) && j < |w.fields| && !Touches(op, j)
    ensures Shown(Step(w, op).mem, Step(w, op).fields[j]) == ValueStep(Values(w), CallOf(w, op))[j]
  {
    assert ValueStep(Values(w), CallOf(w, op))[j] == Values(w)[j];
    FieldShape(w, j);
    OtherFieldSame(w, op, j);
    TextAfter(w, op, w.fields[j].ptr);
    hide Good, Step, Allowed, Frees, Allocates, Writes, ValueStep;
  }

  /** An operation shows as its change to the plain values and nothing else: the pointers are invisible. */
  lemma StepShows(w: World, op: Op)
    requires Good(w) && Allowed(w, op)
    ensures Values(Step(w, op)) == ValueStep(Values(w), CallOf(w, op))
  {
    SameFields(w, op);
    hide Good, Step, Allowed, ValueStep, Shown, CallOf;
    forall j | 0 <= j < |w.fields| ensures Values(Step(w, op))[j] == ValueStep(Values(w), CallOf(w, op))[j] {
      if Touches(op, j) { OperandShows(w, op, j); } else { OtherFieldShows(w, op, j); }
    }
  }

  function ValueRun(vs: seq<Value>, calls: seq<Call>): seq<Value>
    requires forall c <- calls :: (OnField(c.op) ==> c.op.i < |vs|) && (c.op.Swap? ==> c.op.j < |vs|)
    decreases |calls|
  {
    if calls == [] then vs else ValueRun(ValueStep(vs, calls[0]), calls[1..])
  }

  ghost function Calls(w: World, ops: seq<Op>): (calls: seq<Call>)
    requires Good(w) && AllowedRun(w, ops)
    ensures forall c <- calls :: (OnField(c.op) ==> c.op.i < |w.fields|) && (c.op.Swap? ==> c.op.j < |w.fields|)
    decreases |ops|
  {
    if ops == [] then [] else
      SameFields(w, ops[0]);
      StepKeeps(w, ops[0]);
      [CallOf(w, ops[0])] + Calls(Step(w, ops[0]), ops[1..])
  }

  /** A whole run shows what the same calls on plain values show. */
  lemma {:induction false} RunShows(w: World, ops: seq<Op>)
    requires Good(w) && AllowedRun(w, ops)
    ensures |Calls(w, ops)| == |ops| && Values(Run(w, ops)) == ValueRun(Values(w), Calls(w, ops))
    decreases |ops|
  {
    if ops != [] {
      StepKeeps(w, ops[0]);
      StepShows(w, ops[0]);
      SameFields(w, ops[0]);
      RunShows(Step(w, ops[0]), ops[1..]);
      hide Good, Allowed, Step, CallOf, ValueStep, Values;
      assert Calls(w, ops)[1..] == Calls(Step(w, ops[0]), ops[1..]);
    }
  }

  // ----- strings in the caller's hands -----

  /** A string the caller makes is its own, unshown, and reads as the caller said. */
  lemma NewStringText(w: World, value: string)
    requires Good(w)
    ensures var v, p := Step(w, NewString(value)), w.mem.next;
            p in v.caller && Unshown(v, p) && v.mem.text[p] == value
  {
    forall j | 0 <= j < |w.fields| ensures w.fields[j].ptr != w.mem.next { FieldShape(w, j); }
    assert LiveUnlessDeleted(w.mem);
    hide Good;
  }

  /** What the caller makes and hands to a field is what the field shows. */
  lemma HandedInShows(w: World, i: nat, value: string)
    requires Good(w) && Alive(w, i)
    ensures var v, op := Step(w, NewString(value)), SetAllocated(i, w.mem.next);
            Good(v) && Allowed(v, op) && Values(Step(v, op))[i] == Is(value)
  {
    var v, op := Step(w, NewString(value)), SetAllocated(i, w.mem.next);
    StepKeeps(w, NewString(value));
    NewStringText(w, value);
    assert Alive(v, i);
    CallersString(v, w.mem.next);
    hide Good, Step, Values;
    StepShows(v, op);
  }

  /** A string no field shows. */
  predicate Unshown(w: World, p: Address) {
    OnHeap(w.mem, p) && p in w.mem.text && forall f <- w.fields :: f.ptr != p
  }

  /** What a call on a field hands out. */
  function HandedOut(w: World, op: Op): Address
    requires Good(w) && Allowed(w, op) && (op.Release? || op.UnsafeArenaRelease?)
  {
    LiveField(w, op.i);
    if op.Release? then Released(w.mem, w.fields[op.i]).ptr
    else if w.fields[op.i].Unset() then 0 else w.fields[op.i].ptr
  }

  /** Releasing hands out the text the field showed, in a string no field shows any more, the caller's own
      unless an arena already answers for it; an unset field hands out NULL. */
  lemma HandedOutText(w: World, op: Op)
    requires Good(w) && Allowed(w, op) && (op.Release? || op.UnsafeArenaRelease?)
    ensures Values(w)[op.i] == Default ==> HandedOut(w, op) == 0
    ensures Values(w)[op.i] != Default ==>
      var p, v := HandedOut(w, op), Step(w, op);
      Unshown(v, p) && Values(w)[op.i] == Is(v.mem.text[p])
      && (if op.Release? || w.fields[op.i].arena == None then p in v.caller else Loose(v, w.fields[op.i].arena, p))
  {
    OperandsShape(w, op);
    forall j | 0 <= j < |w.fields| && j != op.i ensures Apart(w.fields[op.i], w.fields[j]) { FieldsApart(w, op.i, j); }
    forall j | 0 <= j < |w.fields| ensures GoodField(w.mem, w.fields[j]) { FieldShape(w, j); }
    hide Good;
  }

  /** A string in nobody's field keeps its text until it is passed to an operation. */
  lemma UnshownKept(w: World, op: Op, p: Address)
    requires Good(w) && Allowed(w, op) && Unshown(w, p) && !(TakesString(op) && op.p == p)
    ensures Unshown(Step(w, op), p) && Step(w, op).mem.text[p] == w.mem.text[p]
    ensures p in w.caller ==> p in Step(w, op).caller
  {
    TextKept(w, op, p);
    SameFields(w, op);
    forall j | 0 <= j < |w.fields| ensures Step(w, op).fields[j].ptr != p { StaysUnshown(w, op, p, j); }
    hide Good, Step;
  }

  lemma TextKept(w: World, op: Op, p: Address)
    requires Good(w) && Allowed(w, op) && Unshown(w, p) && !(TakesString(op) && op.p == p)
    ensures OnHeap(Step(w, op).mem, p) && p in Step(w, op).mem.text && Step(w, op).mem.text[p] == w.mem.text[p]
    ensures p in w.caller ==> p in Step(w, op).caller
  {
    TextAfter(w, op, p);
    LedgersAfter(w, op, p, 0);
    assert p in w.caller ==> p in Step(w, op).caller;
    assert p != Frees(w, op) && p != Writes(w, op) by {
      if OnField(op) { assert w.fields[op.i] in w.fields; }
      assert 0 < w.mem.first;
    }
    hide Good, Step, Allowed, Frees, Allocates, Writes;
  }

  lemma StaysUnshown(w: World, op: Op, p: Address, j: nat)
    requires Good(w) && Allowed(w, op) && Unshown(w, p) && !(TakesString(op) && op.p == p) && j < |w.fields|
    ensures Step(w, op).fields[j].ptr != p
  {
    OperandsShape(w, op);
    assert w.fields[j] in w.fields;
    if OnField(op) { assert w.fields[op.i] in w.fields; }
    if op.Swap? { assert w.fields[op.j] in w.fields; }
    hide Good;
  }

  lemma {:induction false} UnshownKeptByRun(w: World, ops: seq<Op>, p: Address)
    requires Good(w) && AllowedRun(w, ops) && Unshown(w, p)
    requires forall op <- ops :: TakesString(op) ==> op.p != p
    ensures Unshown(Run(w, ops), p) && Run(w, ops).mem.text[p] == w.mem.text[p]
    ensures p in w.caller ==> p in Run(w, ops).caller
    decreases |ops|
  {
    if ops != [] {
      StepKeeps(w, ops[0]);
      UnshownKept(w, ops[0], p);
      UnshownKeptByRun(Step(w, ops[0]), ops[1..], p);
    }
  }

  // ----- calls that are safe only under a guard, and exactly which -----

  /** A string with two owners, or with none, refutes the invariant. */
  lemma NotOwnedOnce(w: World, a: Address, o: Owner, p: Owner)
    requires OnHeap(w.mem, a) && Shares(w, o, a) > 0 && (Shares(w, o, a) > 1 || (o != p && Shares(w, p, a) > 0))
    ensures !Good(w)
  {
    assert !Owned(w, a);
  }

  /** DestroyNoArena on any field: it deletes without asking for an arena. */
  function DestroyedNoArena(w: World, i: nat): World
    requires Good(w) && Alive(w, i)
  {
    LiveField(w, i);
    w.Put(i, Effect(AfterDestroy(w.mem, w.fields[i].(arena := None)), 0))
  }

  /** Destroying without an arena is safe if and only if the field is on none, or unset: otherwise its arena
      deletes the string a second time. */
  lemma DestroyNoArenaIff(w: World, i: nat)
    requires Good(w) && Alive(w, i)
    ensures Good(DestroyedNoArena(w, i)) <==> w.fields[i].arena == None || w.fields[i].Unset()
  {
    var f, v := w.fields[i], DestroyedNoArena(w, i);
    FieldShape(w, i);
    if f.arena == None {
      StepKeeps(w, DestroyNoArena(i));
      assert v == Step(w, DestroyNoArena(i));
    } else if f.Unset() {
      ResetKeeps(w, i);
    } else {
      assert Shares(v, ByArena(f.arena.value), f.ptr) > 0 && Shares(v, ByNoOne, f.ptr) > 0;
      NotOwnedOnce(v, f.ptr, ByArena(f.arena.value), ByNoOne);
    }
  }

  /** Taking the pointer of an unset field away changes nothing else. */
  lemma ResetKeeps(w: World, i: nat)
    requires Good(w) && Alive(w, i) && w.fields[i].Unset()
    ensures Good(w.Put(i, Effect(w.mem, 0)))
  {
    var v := w.Put(i, Effect(w.mem, 0));
    forall a: Address, o: Owner ensures Shares(v, o, a) == Shares(w, o, a) {}
    forall a: Address | OnHeap(w.mem, a) ensures Owned(v, a) {
      assert Owned(w, a);
      var o :| SoleOwner(w, o, a);
      assert SoleOwner(v, o, a);
    }
    forall j | 0 <= j < |v.fields| ensures GoodField(v.mem, v.fields[j]) { FieldShape(w, j); }
    forall j, k | 0 <= j < k < |v.fields| ensures Apart(v.fields[j], v.fields[k]) { FieldsApart(w, j, k); }
  }

  /** SetAllocated with any pointer whatever. */
  function SetAllocatedAny(w: World, i: nat, p: Address): World
    requires Good(w) && Alive(w, i)
  {
    LiveField(w, i);
    w.Put(i, AfterSetAllocated(w.mem, w.fields[i], p)).(caller := w.caller - {p})
  }

  /** Handing over a string is safe if and only if the caller holds it, or it is NULL or, off the arenas, the
      field's own default. */
  lemma SetAllocatedIff(w: World, i: nat, p: Address)
    requires Good(w) && Alive(w, i)
    ensures Good(SetAllocatedAny(w, i, p)) <==>
      p == 0 || p in w.caller || (p == w.fields[i].def && w.fields[i].arena == None)
  {
    var f, v := w.fields[i], SetAllocatedAny(w, i, p);
    FieldShape(w, i);
    if p == 0 || p in w.caller {
      StepKeeps(w, SetAllocated(i, p));
      assert v == Step(w, SetAllocated(i, p));
    } else if p == f.def && f.arena == None {
      StepKeeps(w, SetAllocated(i, 0));
      CallersString(w, 0);
      assert v.caller == w.caller == w.caller - {0};
      assert v == Step(w, SetAllocated(i, 0));
    } else {
      ForeignString(w, i, p);
    }
  }

  /** A string the caller does not hold is dead, or somebody else's already. */
  lemma ForeignString(w: World, i: nat, p: Address)
    requires Good(w) && Alive(w, i) && p != 0 && p !in w.caller
    requires p != w.fields[i].def || w.fields[i].arena != None
    ensures !Good(SetAllocatedAny(w, i, p))
  {
    var f, v := w.fields[i], SetAllocatedAny(w, i, p);
    var home := HomeOf(w, i);
    FieldShape(w, i);
    assert v.fields[i].ptr == p && v.mem.first == w.mem.first && v.mem.next == w.mem.next;
    if !OnHeap(w.mem, p) {
      if f.arena != None { assert Shares(v, home, p) > 0; } else { assert !GoodField(v.mem, v.fields[i]); }
    } else {
      assert Owned(w, p);
      var o :| SoleOwner(w, o, p);
      assert o != ByCaller;
      assert Shares(v, home, p) > 0;
      if o == home {
        if f.arena != None { NotOwnedOnce(v, p, home, home); } else { NotOwnedOnce(v, p, home, ByNoOne); }
      } else {
        assert Shares(v, o, p) > 0;
        NotOwnedOnce(v, p, home, o);
      }
    }
  }

  /** UnsafeArenaSetAllocated with any pointer whatever. */
  function UnsafeSetAny(w: World, i: nat, p: Address): World
    requires i < |w.fields|
  {
    w.Put(i, Effect(w.mem, if p != 0 then p else w.fields[i].def))
  }

  /** Pointing a field at a string is safe if and only if it shows that already, or it is on an arena and
      the string is the default or one of that arena that no field shows. */
  lemma UnsafeArenaSetAllocatedIff(w: World, i: nat, p: Address)
    requires Good(w) && Alive(w, i)
    ensures var f := w.fields[i];
            var shown := if p != 0 then p else f.def;
            Good(UnsafeSetAny(w, i, p)) <==>
              shown == f.ptr || (f.arena != None && (shown == f.def || Loose(w, f.arena, shown)))
  {
    var f, v := w.fields[i], UnsafeSetAny(w, i, p);
    var shown := if p != 0 then p else f.def;
    FieldShape(w, i);
    if shown == f.ptr {
      assert v.fields == w.fields;
    } else if f.arena != None && shown == f.def {
      StepKeeps(w, UnsafeArenaSetAllocated(i, 0));
      assert v == Step(w, UnsafeArenaSetAllocated(i, 0));
    } else if f.arena != None && Loose(w, f.arena, shown) {
      StepKeeps(w, UnsafeArenaSetAllocated(i, p));
      assert v == Step(w, UnsafeArenaSetAllocated(i, p));
    } else {
      UnsafeSetBreaks(w, i, p);
    }
  }

  lemma UnsafeSetBreaks(w: World, i: nat, p: Address)
    requires Good(w) && Alive(w, i)
    requires var f := w.fields[i];
             var shown := if p != 0 then p else f.def;
             shown != f.ptr && (f.arena == None || (shown != f.def && !Loose(w, f.arena, shown)))
    ensures !Good(UnsafeSetAny(w, i, p))
  {
    var f, v := w.fields[i], UnsafeSetAny(w, i, p);
    var shown := if p != 0 then p else f.def;
    FieldShape(w, i);
    assert v.fields[i].ptr == shown;
    if f.arena == None && shown == f.def {
      // the string the field answered for is lost
      assert Shares(w, ByField(i), f.ptr) == 1;
      assert Owned(w, f.ptr);
      forall o: Owner ensures Shares(v, o, f.ptr) == 0 {
        assert o != ByField(i) ==> Shares(w, o, f.ptr) == 0;
      }
      assert !Owned(v, f.ptr);
    } else if f.arena == None {
      if OnHeap(w.mem, shown) {
        assert Owned(w, shown);
        var o :| SoleOwner(w, o, shown);
        assert o != ByField(i) && Shares(v, o, shown) > 0 && Shares(v, ByField(i), shown) > 0;
        NotOwnedOnce(v, shown, ByField(i), o);
      } else {
        assert !GoodField(v.mem, v.fields[i]);
      }
    } else if exists j :: 0 <= j < |w.fields| && w.fields[j].ptr == shown {
      var j :| 0 <= j < |w.fields| && w.fields[j].ptr == shown;
      assert v.fields[j].ptr == shown && !Apart(v.fields[i], v.fields[j]) && !Apart(v.fields[j], v.fields[i]);
    } else {
      assert !GoodField(v.mem, v.fields[i]);
    }
  }

  /** Resetting a field to the default loses no string if and only if the field answered for none. */
  lemma UnsafeSetDefaultIff(w: World, i: nat)
    requires Good(w) && i < |w.fields|
    ensures Good(w.Put(i, Effect(w.mem, w.fields[i].def))) <==> Allowed(w, UnsafeSetDefault(i))
  {
    var f, v := w.fields[i], w.Put(i, Effect(w.mem, w.fields[i].def));
    if Allowed(w, UnsafeSetDefault(i)) {
      StepKeeps(w, UnsafeSetDefault(i));
    } else {
      FieldShape(w, i);
      assert Shares(w, ByField(i), f.ptr) == 1;
      assert Owned(w, f.ptr);
      forall o: Owner ensures Shares(v, o, f.ptr) == 0 {
        assert o != ByField(i) ==> Shares(w, o, f.ptr) == 0;
      }
      assert !Owned(v, f.ptr);
    }
  }

  function Swapped(w: World, i: nat, j: nat): World
    requires i < |w.fields| && j < |w.fields|
  {
    w.(fields := w.fields[i := w.fields[i].(ptr := w.fields[j].ptr)][j := w.fields[j].(ptr := w.fields[i].ptr)])
  }

  /** Swapping the pointers of two fields is safe if and only if they are on the same arena, or neither is set. */
  lemma SwapIff(w: World, i: nat, j: nat)
    requires Good(w) && Alive(w, i) && Alive(w, j) && w.fields[i].def == w.fields[j].def
    ensures Good(Swapped(w, i, j)) <==>
      w.fields[i].arena == w.fields[j].arena || (w.fields[i].Unset() && w.fields[j].Unset())
  {
    if w.fields[i].arena == w.fields[j].arena {
      StepKeeps(w, Swap(i, j));
      assert Swapped(w, i, j) == Step(w, Swap(i, j));
    } else if w.fields[i].Unset() && w.fields[j].Unset() {
      assert Swapped(w, i, j).fields == w.fields;
    } else if !w.fields[i].Unset() {
      Misplaced(w, i, j);
    } else {
      Misplaced(w, j, i);
      assert Swapped(w, i, j).fields == Swapped(w, j, i).fields;
    }
  }

  /** Field i's string now sits in a field of another arena, which either does not answer for it or does
      so besides its owner. */
  lemma Misplaced(w: World, i: nat, j: nat)
    requires Good(w) && Alive(w, i) && Alive(w, j) && w.fields[i].def == w.fields[j].def
    requires w.fields[i].arena != w.fields[j].arena && !w.fields[i].Unset()
    ensures !Good(Swapped(w, i, j))
  {
    FieldShape(w, i);
    var p, v := w.fields[i].ptr, Swapped(w, i, j);
    assert Owned(w, p);
    assert v.fields[j].ptr == p;
    if w.fields[j].arena == None {
      assert Shares(w, ByArena(w.fields[i].arena.value), p) > 0;
      assert Shares(v, ByArena(w.fields[i].arena.value), p) > 0 && Shares(v, ByField(j), p) == 1;
      assert !Owned(v, p);
    } else {
      assert Shares(w, HomeOf(w, i), p) > 0;
      assert Shares(w, ByArena(w.fields[j].arena.value), p) == 0;
      assert !GoodField(v.mem, v.fields[j]);
    }
  }

  // ----- the class -----

  /** The heap, with what the arenas have been told to delete. */
  class Heap {
    var mem: Memory

    constructor (first: Address, defaults: map<Address, string>)
      requires 0 < first && forall a: Address :: a in defaults <==> 0 < a < first
      ensures mem == Fresh(first, defaults)
    {
      mem := Fresh(first, defaults);
    }
  }

  class ArenaStringPtr {
    var ptr: Address

    method CreateInstance(arena: Option<nat>, initial: Option<string>, heap: Heap)
      modifies this, heap
      ensures Effect(heap.mem, ptr) ==
        Create(old(heap.mem), arena, if initial == None then "" else initial.value)
    {
      var p := heap.mem.next;
      if initial != None {
        heap.mem := heap.mem.New(initial.value);
      } else {
        heap.mem := heap.mem.New("");
      }
      ptr := p;
      if arena != None {
        heap.mem := heap.mem.Own(arena, ptr);
      }
    }

    method Set(defaultValue: Address, value: string, arena: Option<nat>, heap: Heap)
      requires ptr in heap.mem.text
      modifies this, heap
      ensures Effect(heap.mem, ptr) == AfterSet(old(heap.mem), Field(old(ptr), defaultValue, arena), value)
      ensures ptr in heap.mem.text && heap.mem.text[ptr] == value
    {
      if ptr == defaultValue {
        CreateInstance(arena, Some(value), heap);
      } else {
        heap.mem := heap.mem.Write(ptr, value);
      }
    }

    method Get(heap: Heap) returns (s: string)
      requires ptr in heap.mem.text
      ensures s == heap.mem.text[ptr]
      ensures forall def: Address | def in heap.mem.text && ptr != 0 ::
        match Shown(heap.mem, Field(ptr, def, None))
        case Default => s == heap.mem.text[def]
        case Is(text) => s == text
        case Gone => false
    {
      s := heap.mem.text[ptr];
    }

    method Mutable(defaultValue: Address, arena: Option<nat>, heap: Heap) returns (p: Address)
      requires defaultValue in heap.mem.text
      modifies this, heap
      ensures Effect(heap.mem, ptr) == AfterMutable(old(heap.mem), Field(old(ptr), defaultValue, arena))
      ensures p == ptr
      ensures old(ptr in heap.mem.text) ==> p in heap.mem.text && heap.mem.text[p] == old(heap.mem.text[ptr])
    {
      if ptr == defaultValue {
        CreateInstance(arena, Some(heap.mem.text[defaultValue]), heap);
      }
      p := ptr;
    }

    method Release(defaultValue: Address, arena: Option<nat>, heap: Heap) returns (released: Address)
      requires ptr in heap.mem.text
      modifies this, heap
      ensures Effect(heap.mem, released) == Released(old(heap.mem), Field(old(ptr), defaultValue, arena))
      ensures ptr == defaultValue
    {
      if ptr == defaultValue {
        return 0;
      }
      released := 0;
      if arena != None {
        released := heap.mem.next;
        heap.mem := heap.mem.New(heap.mem.text[ptr]);
      } else {
        released := ptr;
      }
      ptr := defaultValue;
    }

    method UnsafeArenaRelease(defaultValue: Address) returns (released: Address)
      modifies this
      ensures released == if old(ptr) == defaultValue then 0 else old(ptr)
      ensures ptr == defaultValue
    {
      if ptr == defaultValue {
        return 0;
      }
      released := ptr;
      ptr := defaultValue;
    }

    method SetAllocated(defaultValue: Address, value: Address, arena: Option<nat>, heap: Heap)
      requires ptr in heap.mem.text
      modifies this, heap
      ensures Effect(heap.mem, ptr) ==
        AfterSetAllocated(old(heap.mem), Field(old(ptr), defaultValue, arena), value)
    {
      if arena == None && ptr != defaultValue {
        Destroy(defaultValue, arena, heap);
      }
      if value != 0 {
        ptr := value;
        if arena != None {
          heap.mem := heap.mem.Own(arena, value);
        }
      } else {
        ptr := defaultValue;
      }
    }

    method UnsafeArenaSetAllocated(defaultValue: Address, value: Address)
      modifies this
      ensures ptr == if value != 0 then value else defaultValue
    {
      if value != 0 {
        ptr := value;
      } else {
        ptr := defaultValue;
      }
    }

    method Swap(other: ArenaStringPtr)
      modifies this, other
      ensures ptr == old(other.ptr) && other.ptr == old(ptr)
    {
      ptr, other.ptr := other.ptr, ptr;
    }

    method Destroy(defaultValue: Address, arena: Option<nat>, heap: Heap)
      requires ptr in heap.mem.text
      modifies this, heap
      ensures heap.mem == AfterDestroy(old(heap.mem), Field(old(ptr), defaultValue, arena))
      ensures ptr == defaultValue
    {
      if arena == None && ptr != defaultValue {
        heap.mem := heap.mem.Delete(ptr);
      }
      ptr := defaultValue;
    }

    /** Clearing shows the empty string afterwards if and only if the field was set or its default is empty. */
    method ClearToEmpty(defaultValue: Address, heap: Heap)
      requires ptr in heap.mem.text
      modifies heap
      ensures forall arena :: heap.mem == AfterClear(old(heap.mem), Field(ptr, defaultValue, arena), "")
      ensures ptr in heap.mem.text
      ensures heap.mem.text[ptr] == "" <==> ptr != defaultValue || old(heap.mem.text[ptr]) == ""
    {
      if ptr == defaultValue {
      } else {
        heap.mem := heap.mem.Write(ptr, "");
      }
    }

    method ClearToDefault(defaultValue: Address, heap: Heap)
      requires ptr in heap.mem.text && defaultValue in heap.mem.text
      modifies heap
      ensures forall arena ::
        heap.mem == AfterClear(old(heap.mem), Field(ptr, defaultValue, arena), old(heap.mem.text[defaultValue]))
      ensures ptr in heap.mem.text && heap.mem.text[ptr] == old(heap.mem.text[defaultValue])
    {
      if ptr == defaultValue {
      } else {
        heap.mem := heap.mem.Write(ptr, heap.mem.text[defaultValue]);
      }
    }

    method UnsafeSetDefault(defaultValue: Address)
      modifies this
      ensures ptr == defaultValue
    {
      ptr := defaultValue;
    }

    // The forms without an arena do what the others do for NULL; only DestroyNoArena leaves NULL behind.

    method CreateInstanceNoArena(initial: Option<string>, heap: Heap)
      modifies this, heap
      ensures Effect(heap.mem, ptr) ==
        Create(old(heap.mem), None, if initial == None then "" else initial.value)
    {
      var p := heap.mem.next;
      if initial != None {
        heap.mem := heap.mem.New(initial.value);
      } else {
        heap.mem := heap.mem.New("");
      }
      ptr := p;
    }

    method SetNoArena(defaultValue: Address, value: string, heap: Heap)
      requires ptr in heap.mem.text
      modifies this, heap
      ensures Effect(heap.mem, ptr) == AfterSet(old(heap.mem), Field(old(ptr), defaultValue, None), value)
    {
      if ptr == defaultValue {
        CreateInstanceNoArena(Some(value), heap);
      } else {
        heap.mem := heap.mem.Write(ptr, value);
      }
    }

    method MutableNoArena(defaultValue: Address, heap: Heap) returns (p: Address)
      requires defaultValue in heap.mem.text
      modifies this, heap
      ensures Effect(heap.mem, ptr) == AfterMutable(old(heap.mem), Field(old(ptr), defaultValue, None))
      ensures p == ptr
      ensures old(ptr in heap.mem.text) ==> p in heap.mem.text && heap.mem.text[p] == old(heap.mem.text[ptr])
    {
      if ptr == defaultValue {
        CreateInstanceNoArena(Some(heap.mem.text[defaultValue]), heap);
      }
      p := ptr;
    }

    method ReleaseNoArena(defaultValue: Address, heap: Heap) returns (released: Address)
      requires ptr in heap.mem.text
      modifies this
      ensures Effect(heap.mem, released) == Released(heap.mem, Field(old(ptr), defaultValue, None))
      ensures ptr == defaultValue
    {
      if ptr == defaultValue {
        return 0;
      } else {
        released := ptr;
        ptr := defaultValue;
      }
    }

    method SetAllocatedNoArena(defaultValue: Address, value: Address, heap: Heap)
      requires ptr in heap.mem.text
      modifies this, heap
      ensures Effect(heap.mem, ptr) ==
        AfterSetAllocated(old(heap.mem), Field(old(ptr), defaultValue, None), value)
    {
      if ptr != defaultValue {
        heap.mem := heap.mem.Delete(ptr);
      }
      if value != 0 {
        ptr := value;
      } else {
        ptr := defaultValue;
      }
    }

    method DestroyNoArena(defaultValue: Address, heap: Heap)
      requires ptr in heap.mem.text
      modifies this, heap
      ensures heap.mem == AfterDestroy(old(heap.mem), Field(old(ptr), defaultValue, None))
      ensures ptr == 0
    {
      if ptr != defaultValue {
        heap.mem := heap.mem.Delete(ptr);
      }
      ptr := 0;
    }
  }

  // ----- real objects, through a whole run -----

  /** Fields on one heap, the messages' constants about them, and the strings in the caller's hands. */
  class Program {
    const heap: Heap
    const ptrs: seq<ArenaStringPtr>
    const defs: seq<Address>
    const arenas: seq<Option<nat>>
    var caller: set<Address>

    ghost predicate Valid()
      reads this, heap, ptrs
    {
      |ptrs| == |defs| == |arenas| && (forall i, j | 0 <= i < j < |ptrs| :: ptrs[i] != ptrs[j]) && Good(State())
    }

    ghost function State(): (w: World)
      requires |ptrs| == |defs| == |arenas|
      reads this, heap, ptrs
    {
      World(heap.mem,
            seq(|ptrs|, i requires 0 <= i < |ptrs| reads ptrs => Field(ptrs[i].ptr, defs[i], arenas[i])),
            caller)
    }

    constructor (heap: Heap, ptrs: seq<ArenaStringPtr>, defs: seq<Address>, arenas: seq<Option<nat>>)
      ensures this.heap == heap && this.ptrs == ptrs && this.defs == defs && this.arenas == arenas && caller == {}
    {
      this.heap, this.ptrs, this.defs, this.arenas, caller := heap, ptrs, defs, arenas, {};
    }

    method PerformSet(op: Op)
      requires Valid() && Allowed(State(), op)
      requires op.Set? || op.Mutable?
      modifies this, heap, ptrs
      ensures State() == Step(old(State()), op)
    {
      OperandsLive(State(), op);
      hide Good, GoodField, Loose;
      ghost var w := State();
      match op {
        case Set(i, value) => ptrs[i].Set(defs[i], value, arenas[i], heap);
        case Mutable(i, edit) =>
          var p := ptrs[i].Mutable(defs[i], arenas[i], heap);
          heap.mem := heap.mem.Write(p, edit(heap.mem.text[p]));
        case _ =>
      }
      assert State().fields == Step(w, op).fields;
    }

    method PerformSetAllocated(op: Op)
      requires Valid() && Allowed(State(), op)
      requires op.SetAllocated? || op.UnsafeArenaSetAllocated?
      modifies this, heap, ptrs
      ensures State() == Step(old(State()), op)
    {
      OperandsLive(State(), op);
      hide Good, GoodField, Loose;
      ghost var w := State();
      match op {
        case SetAllocated(i, p) =>
          ptrs[i].SetAllocated(defs[i], p, arenas[i], heap);
          caller := caller - {p};
        case UnsafeArenaSetAllocated(i, p) => ptrs[i].UnsafeArenaSetAllocated(defs[i], p);
        case _ =>
      }
      assert State().fields == Step(w, op).fields;
    }

    method PerformRelease(op: Op)
      requires Valid() && Allowed(State(), op)
      requires op.Release? || op.UnsafeArenaRelease? || op.NewString? || op.DeleteString?
      modifies this, heap, ptrs
      ensures State() == Step(old(State()), op)
    {
      OperandsLive(State(), op);
      hide Good, GoodField, Loose;
      ghost var w := State();
      match op {
        case Release(i) =>
          var p := ptrs[i].Release(defs[i], arenas[i], heap);
          caller := caller + if p == 0 then {} else {p};
        case UnsafeArenaRelease(i) =>
          var p := ptrs[i].UnsafeArenaRelease(defs[i]);
          caller := caller + if p == 0 || arenas[i] != None then {} else {p};
        case NewString(value) =>
          caller := caller + {heap.mem.next};
          heap.mem := heap.mem.New(value);
        case DeleteString(p) =>
          heap.mem := heap.mem.Delete(p);
          caller := caller - {p};
        case _ =>
      }
      assert State().fields == Step(w, op).fields;
    }

    method PerformDestroy(op: Op)
      requires Valid() && Allowed(State(), op) && (op.Destroy? || op.DestroyNoArena?)
      modifies this, heap, ptrs
      ensures State() == Step(old(State()), op)
    {
      OperandsLive(State(), op);
      hide Good, GoodField, Loose;
      ghost var w := State();
      match op {
        case Destroy(i) => ptrs[i].Destroy(defs[i], arenas[i], heap);
        case DestroyNoArena(i) => ptrs[i].DestroyNoArena(defs[i], heap);
        case _ =>
      }
      assert State().fields == Step(w, op).fields;
    }

    method PerformPoint(op: Op)
      requires Valid() && Allowed(State(), op) && (op.Swap? || op.UnsafeSetDefault?)
      modifies this, heap, ptrs
      ensures State() == Step(old(State()), op)
    {
      OperandsLive(State(), op);
      hide Good, GoodField, Loose;
      ghost var w := State();
      match op {
        case Swap(i, j) => ptrs[i].Swap(ptrs[j]);
        case UnsafeSetDefault(i) => ptrs[i].UnsafeSetDefault(defs[i]);
        case _ =>
      }
      assert State().fields == Step(w, op).fields;
    }

    method PerformClear(op: Op)
      requires Valid() && Allowed(State(), op) && (op.ClearToEmpty? || op.ClearToDefault?)
      modifies this, heap, ptrs
      ensures State() == Step(old(State()), op)
    {
      OperandsLive(State(), op);
      hide Good, GoodField, Loose;
      ghost var w := State();
      match op {
        case ClearToEmpty(i) => ptrs[i].ClearToEmpty(defs[i], heap);
        case ClearToDefault(i) => ptrs[i].ClearToDefault(defs[i], heap);
        case _ =>
      }
      assert State().fields == Step(w, op).fields;
    }

    /** One call on one of the objects, or one of the caller's own, does what the specification's step does. */
    method Perform(op: Op)
      requires Valid() && Allowed(State(), op)
      modifies this, heap, ptrs
      ensures Valid() && State() == Step(old(State()), op)
    {
      StepKeeps(State(), op);
      hide Good, Step, Allowed;
      match op
      case Set(_, _) => PerformSet(op);
      case Mutable(_, _) => PerformSet(op);
      case SetAllocated(_, _) => PerformSetAllocated(op);
      case UnsafeArenaSetAllocated(_, _) => PerformSetAllocated(op);
      case Release(_) => PerformRelease(op);
      case UnsafeArenaRelease(_) => PerformRelease(op);
      case NewString(_) => PerformRelease(op);
      case DeleteString(_) => PerformRelease(op);
      case ClearToEmpty(_) => PerformClear(op);
      case ClearToDefault(_) => PerformClear(op);
      case Destroy(_) => PerformDestroy(op);
      case DestroyNoArena(_) => PerformDestroy(op);
      case _ => PerformPoint(op);
    }

    method RunAll(ops: seq<Op>)
      requires Valid() && AllowedRun(State(), ops)
      modifies this, heap, ptrs
      ensures Valid() && State() == Run(old(State()), ops)
    {
      for k := 0 to |ops|
        invariant Valid() && AllowedRun(State(), ops[k..])
        invariant Run(State(), ops[k..]) == Run(old(State()), ops)
      {
        assert ops[k..][0] == ops[k] && ops[k..][1..] == ops[k + 1..];
        Perform(ops[k]);
      }
    }
  }
}
