/** The preview window's two maps: buffer id to imported handle, and the address of that
    map entry, which is what the camera HAL holds, back to the buffer id. */
module PreviewBuffers {

  /** An entry of the id-to-handle map; the HAL's buffer pointer is its address. */
  class Cell {
    const handle: nat

    constructor (handle: nat)
      ensures this.handle == handle
    {
      this.handle := handle;
    }
  }

  datatype Status = Ok | InvalidOperation | BadValue | InternalError | CallbackError | OutOfRange

  /** What the preview callback answers to a dequeue request. */
  datatype Answer = Failed | Buffer(id: nat, importable: bool)

  ghost predicate Held(m: map<nat, Cell>, h: nat) { exists id :: id in m && m[id].handle == h }

  /** A handle imported so far has been freed once unless an entry holds it; no other was freed. */
  ghost predicate Accounted(m: map<nat, Cell>, imports: nat, freed: multiset<nat>) {
    forall h: nat :: freed[h] == if h < imports && !Held(m, h) then 1 else 0
  }

  lemma HeldAfter(m: map<nat, Cell>, id: nat, cell: Cell, h: nat)
    requires id !in m
    ensures Held(m[id := cell], h) <==> Held(m, h) || h == cell.handle
  {
    var n := m[id := cell];
    if Held(m, h) {
      var i :| i in m && m[i].handle == h;
      assert n[i].handle == h;
    }
    if h == cell.handle {
      assert n[id].handle == h;
    }
  }

  lemma AccountedImport(m: map<nat, Cell>, id: nat, cell: Cell, imports: nat, freed: multiset<nat>)
    requires id !in m && cell.handle == imports && Accounted(m, imports, freed)
    ensures Accounted(m[id := cell], imports + 1, freed)
  {
    forall h: nat ensures freed[h] == if h < imports + 1 && !Held(m[id := cell], h) then 1 else 0 {
      HeldAfter(m, id, cell, h);
    }
  }

  lemma AccountedFree(m: map<nat, Cell>, id: nat, imports: nat, freed: multiset<nat>)
    requires id in m && Accounted(m, imports, freed) && m[id].handle < imports
    requires forall i | i in m && i != id :: m[i].handle != m[id].handle
    ensures Accounted(m - {id}, imports, freed + multiset{m[id].handle})
  {
    var n := m - {id};
    assert n[id := m[id]] == m;
    forall h: nat ensures (freed + multiset{m[id].handle})[h] == if h < imports && !Held(n, h) then 1 else 0 {
      HeldAfter(n, id, m[id], h);
    }
  }

  /** The two maps are inverse to each other. */
  ghost predicate Inverse(m: map<nat, Cell>, idOf: map<Cell, nat>) {
    && (forall id | id in m :: m[id] in idOf && idOf[m[id]] == id)
    && (forall p | p in idOf :: idOf[p] in m && m[idOf[p]] == p)
  }

  /** Entries hold different handles, all of them imported. */
  ghost predicate Apart(m: map<nat, Cell>, imports: nat) {
    && (forall id | id in m :: m[id].handle < imports)
    && (forall i, j | i in m && j in m && i != j :: m[i].handle != m[j].handle)
  }

  lemma InverseImport(m: map<nat, Cell>, idOf: map<Cell, nat>, id: nat, cell: Cell)
    requires Inverse(m, idOf) && id !in m && cell !in idOf
    ensures Inverse(m[id := cell], idOf[cell := id])
  {
  }

  lemma ApartImport(m: map<nat, Cell>, id: nat, cell: Cell, imports: nat)
    requires Apart(m, imports) && id !in m && cell.handle == imports
    ensures Apart(m[id := cell], imports + 1)
  {
  }

  lemma ApartFree(m: map<nat, Cell>, id: nat, imports: nat)
    requires Apart(m, imports) && id in m
    ensures Apart(m - {id}, imports)
  {
  }

  lemma ImportKept(m: map<nat, Cell>, idOf: map<Cell, nat>, id: nat, cell: Cell, imports: nat, freed: multiset<nat>)
    requires Inverse(m, idOf) && Apart(m, imports) && Accounted(m, imports, freed)
    requires id !in m && cell !in idOf && cell.handle == imports
    ensures Inverse(m[id := cell], idOf[cell := id])
    ensures Apart(m[id := cell], imports + 1) && Accounted(m[id := cell], imports + 1, freed)
  {
    AccountedImport(m, id, cell, imports, freed);
    InverseImport(m, idOf, id, cell);
    ApartImport(m, id, cell, imports);
  }

  class PreviewWindow {
    var circulating: map<nat, Cell>
    var idOf: map<Cell, nat>
    var imports: nat
    ghost var freed: multiset<nat>

    /** The two maps are inverse to each other, and every handle imported so far is either held
        by exactly one entry or has been freed exactly once. */
    ghost predicate Valid()
      reads this
    {
      Inverse(circulating, idOf) && Apart(circulating, imports) && Accounted(circulating, imports, freed)
    }

    constructor ()
      ensures Valid() && circulating == map[] && idOf == map[] && imports == 0
    {
      circulating, idOf, imports, freed := map[], map[], 0, multiset{};
    }

    /** Frees every held handle and forgets every buffer. */
    method CleanUpCirculatingBuffers()
      requires Valid()
      modifies this
      ensures Valid() && circulating == map[] && idOf == map[] && imports == old(imports)
      ensures forall h: nat :: freed[h] == if h < imports then 1 else 0
    {
      var todo := circulating;
      while todo != map[]
        invariant circulating == old(circulating) && imports == old(imports)
        invariant Apart(todo, imports) && Accounted(todo, imports, freed)
        decreases |todo|
      {
        assert todo.Keys != {};
        var id :| id in todo;
        AccountedFree(todo, id, imports, freed);
        ApartFree(todo, id, imports);
        freed := freed + multiset{todo[id].handle};
        todo := todo - {id};
      }
      circulating := map[];
      idOf := map[];
    }

    /** Hands out the pointer for the buffer the callback names, importing it the first time. */
    method DequeueBuffer(hasCallback: bool, argsValid: bool, answer: Answer) returns (s: Status, buffer: Cell?)
      requires Valid()
      modifies this
      ensures Valid()
      ensures forall p | p in old(idOf) :: p in idOf && idOf[p] == old(idOf[p])
      ensures s == if !hasCallback then InvalidOperation else if !argsValid then BadValue
                   else if answer.Failed? then CallbackError
                   else if answer.id !in old(circulating) && !answer.importable then InternalError else Ok
      ensures s.Ok? ==> buffer != null && buffer in idOf && idOf[buffer] == answer.id && circulating[answer.id] == buffer
      ensures s.Ok? && answer.id !in old(circulating) ==> imports == old(imports) + 1 && circulating.Keys == old(circulating).Keys + {answer.id}
      ensures !(s.Ok? && answer.id !in old(circulating)) ==> circulating == old(circulating) && idOf == old(idOf) && imports == old(imports)
    {
      buffer := null;
      if !hasCallback { return InvalidOperation, null; }
      if !argsValid { return BadValue, null; }
      if answer.Failed? { return CallbackError, null; }
      if answer.id !in circulating {
        if !answer.importable { return InternalError, null; }
        Import(answer.id);
      }
      return Ok, circulating[answer.id];
    }

    /** Imports a buffer seen for the first time. */
    method Import(id: nat)
      requires Valid() && id !in circulating
      modifies this
      ensures Valid() && imports == old(imports) + 1 && circulating.Keys == old(circulating).Keys + {id}
      ensures forall i | i in old(circulating) :: circulating[i] == old(circulating[i])
      ensures forall p | p in old(idOf) :: p in idOf && idOf[p] == old(idOf[p])
    {
      var cell := new Cell(imports);
      ImportKept(circulating, idOf, id, cell, imports, freed);
      circulating, idOf, imports := circulating[id := cell], idOf[cell := id], imports + 1;
      hide Accounted, Inverse, Apart;
    }

    /** Returns a buffer under the id it was dequeued with; an unknown pointer throws. Enqueueing
        and cancelling look the id up in the same way. */
    method ReturnBuffer(hasCallback: bool, buffer: Cell) returns (s: Status, id: nat)
      requires Valid()
      ensures s == if !hasCallback then InvalidOperation else if buffer !in idOf then OutOfRange else Ok
      ensures s.Ok? ==> id in circulating && circulating[id] == buffer && idOf[buffer] == id
    {
      id := 0;
      if !hasCallback { return InvalidOperation, 0; }
      if buffer !in idOf { return OutOfRange, 0; }
      return Ok, idOf[buffer];
    }

    /** A dequeued buffer goes back under its own id, whatever is dequeued in between, and is
        unknown once a cleanup has run. */
    method BorrowAndReturn(id: nat, others: seq<Answer>) returns (s: Status, back: nat, stale: Status)
      requires Valid()
      modifies this
      ensures Valid() && s.Ok? && back == id && stale.OutOfRange?
    {
      var t, p := DequeueBuffer(true, true, Buffer(id, true));
      for i := 0 to |others|
        invariant Valid() && p != null && p in idOf && idOf[p] == id
      {
        var _, _ := DequeueBuffer(true, true, others[i]);
      }
      s, back := ReturnBuffer(true, p);
      CleanUpCirculatingBuffers();
      var none: nat;
      stale, none := ReturnBuffer(true, p);
    }

    /** The destructor: every handle ever imported has been freed exactly once. */
    method Destroy()
      requires Valid()
      modifies this
      ensures forall h: nat :: freed[h] == if h < old(imports) then 1 else 0
    {
      CleanUpCirculatingBuffers();
    }
  }
}
