/**
 Intrusive reference counting.  Handles are the intrusive pointers that exist
 in the program; objects carry their own count and are deleted by the handle
 that releases them last.
 */
module RefCounts {
  import opened Checks
  import opened Seqs

  type Handle = nat
  type ObjectId = nat

  datatype Pointer = Null | To(target: ObjectId)

  type Handles = map<Handle, Pointer>

  function Pointing(handles: Handles, o: ObjectId): set<Handle> {
    set h | h in handles && handles[h] == To(o)
  }

  /** The counts of the live objects are the numbers of handles that point to them, and nothing dangles. */
  ghost predicate AreCounted(handles: Handles, counts: map<ObjectId, nat>) {
    (forall h :: h in handles && handles[h].To? ==> handles[h].target in counts) &&
    (forall o :: o in counts ==> counts[o] == |Pointing(handles, o)| && counts[o] > 0)
  }

  /** Every object ever created is either live or has been deleted, once. */
  ghost predicate IsConserved(created: seq<ObjectId>, counts: map<ObjectId, nat>, deleted: seq<ObjectId>) {
    multiset(created) == multiset(deleted) + multiset(counts.Keys) &&
    forall o :: o in multiset(created) ==> multiset(created)[o] == 1
  }

  // ---------- Counting handles ----------

  lemma PointMore(handles: Handles, h: Handle, o: ObjectId)
    requires h in handles ==> handles[h] != To(o)
    ensures |Pointing(handles[h := To(o)], o)| == |Pointing(handles, o)| + 1
  {
    assert Pointing(handles[h := To(o)], o) == Pointing(handles, o) + {h};
  }

  lemma PointElsewhere(handles: Handles, h: Handle, p: Pointer, o: ObjectId)
    requires (h in handles ==> handles[h] != To(o)) && p != To(o)
    ensures Pointing(handles[h := p], o) == Pointing(handles, o)
  {
  }

  lemma PointLess(handles: Handles, h: Handle, o: ObjectId)
    requires h in handles && handles[h] == To(o)
    ensures |Pointing(handles - {h}, o)| == |Pointing(handles, o)| - 1
    ensures h in Pointing(handles, o)
  {
    assert Pointing(handles - {h}, o) == Pointing(handles, o) - {h};
  }

  lemma ForgetElsewhere(handles: Handles, h: Handle, o: ObjectId)
    requires h in handles ==> handles[h] != To(o)
    ensures Pointing(handles - {h}, o) == Pointing(handles, o)
  {
  }

  /** Exchanging what two handles point to does not change any number. */
  lemma SwapKeepsCount(handles: Handles, a: Handle, b: Handle, o: ObjectId)
    requires a in handles && b in handles
    ensures |Pointing(handles[a := handles[b]][b := handles[a]], o)| == |Pointing(handles, o)|
  {
    var after := handles[a := handles[b]][b := handles[a]];
    var (before, now) := (Pointing(handles, o), Pointing(after, o));
    forall h
      ensures h in now <==> if h == b then a in before else if h == a then b in before else h in before
    {
    }
    hide Pointing;
    if a in before && b !in before {
      assert now == before - {a} + {b};
    } else if b in before && a !in before {
      assert now == before - {b} + {a};
    } else {
      assert now == before;
    }
  }

  // ---------- Steps on counts ----------

  lemma RetainIsCounted(handles: Handles, counts: map<ObjectId, nat>, h: Handle, o: ObjectId)
    requires AreCounted(handles, counts) && h !in handles
    ensures AreCounted(handles[h := To(o)], counts[o := (if o in counts then counts[o] else 0) + 1])
  {
    var handles', counts' := handles[h := To(o)], counts[o := (if o in counts then counts[o] else 0) + 1];
    if o !in counts {
      assert Pointing(handles, o) == {};
    }
    PointMore(handles, h, o);
    forall u | u in counts'
      ensures counts'[u] == |Pointing(handles', u)| && counts'[u] > 0
    {
      if u != o {
        PointElsewhere(handles, h, To(o), u);
      }
    }
  }

  lemma NullIsCounted(handles: Handles, counts: map<ObjectId, nat>, h: Handle)
    requires AreCounted(handles, counts) && h !in handles
    ensures AreCounted(handles[h := Null], counts)
  {
    forall u | u in counts
      ensures counts[u] == |Pointing(handles[h := Null], u)|
    {
      PointElsewhere(handles, h, Null, u);
    }
  }

  /** The live objects after a release: the last reference takes its object away. */
  function Released(counts: map<ObjectId, nat>, p: Pointer): map<ObjectId, nat>
    requires p.To? ==> p.target in counts && counts[p.target] >= 1
  {
    if p.Null? then counts
    else if counts[p.target] == 1 then counts - {p.target}
    else counts[p.target := counts[p.target] - 1]
  }

  function DeletedBy(counts: map<ObjectId, nat>, p: Pointer): seq<ObjectId>
    requires p.To? ==> p.target in counts
  {
    if p.To? && counts[p.target] == 1 then [p.target] else []
  }

  lemma ForgetIsCounted(handles: Handles, counts: map<ObjectId, nat>, h: Handle)
    requires AreCounted(handles, counts) && h in handles
    ensures handles[h].To? ==> handles[h].target in counts && counts[handles[h].target] >= 1
    ensures AreCounted(handles - {h}, Released(counts, handles[h]))
  {
    match handles[h] {
      case Null =>
        forall u | u in counts
          ensures Pointing(handles - {h}, u) == Pointing(handles, u)
        {
          ForgetElsewhere(handles, h, u);
        }
      case To(o) =>
        PointLess(handles, h, o);
        var counts' := Released(counts, To(o));
        forall u | u in counts'
          ensures counts'[u] == |Pointing(handles - {h}, u)| && counts'[u] > 0
        {
          if u != o {
            ForgetElsewhere(handles, h, u);
          }
        }
        forall g | g in handles - {h} && handles[g].To?
          ensures handles[g].target in counts'
        {
          if handles[g] == To(o) {
            assert g in Pointing(handles - {h}, o);
          }
        }
    }
  }

  lemma SwapIsCounted(handles: Handles, counts: map<ObjectId, nat>, a: Handle, b: Handle)
    requires AreCounted(handles, counts) && a in handles && b in handles
    ensures AreCounted(handles[a := handles[b]][b := handles[a]], counts)
  {
    forall o | o in counts
      ensures |Pointing(handles[a := handles[b]][b := handles[a]], o)| == |Pointing(handles, o)|
    {
      SwapKeepsCount(handles, a, b, o);
    }
  }

  /** Moving a pointer from one handle to a new one. */
  lemma MoveIsCounted(handles: Handles, counts: map<ObjectId, nat>, h: Handle, other: Handle)
    requires AreCounted(handles, counts) && h !in handles && other in handles
    ensures AreCounted(handles[h := handles[other]][other := Null], counts)
  {
    NullIsCounted(handles, counts, h);
    SwapIsCounted(handles[h := Null], counts, h, other);
    assert handles[h := Null][h := handles[other]][other := Null] == handles[h := handles[other]][other := Null];
  }

  // ---------- The program ----------

  class PointerProgram {
    /** The intrusive pointers in existence. */
    var handles: Handles
    /** The live objects with their counts. */
    var counts: map<ObjectId, nat>
    /** Everything that was allocated and deleted so far. */
    var created: seq<ObjectId>
    var deleted: seq<ObjectId>

    ghost predicate Valid()
      reads this
    {
      AreCounted(handles, counts) && IsConserved(created, counts, deleted)
    }

    constructor ()
      ensures Valid() && handles == map[] && created == []
    {
      handles, counts, created, deleted := map[], map[], [], [];
    }

    /** Returns the old value. */
    method FetchAdd(o: ObjectId, increment: nat) returns (before: nat)
      requires o in counts
      modifies this`counts
      ensures before == old(counts)[o] && counts == old(counts)[o := before + increment]
    {
      before := counts[o];
      counts := counts[o := before + increment];
    }

    /** Fails when the count would become negative. */
    method FetchSub(o: ObjectId, decrement: nat) returns (r: Checked<nat>)
      requires o in counts
      modifies this`counts
      ensures r.Passed? <==> old(counts)[o] >= decrement
      ensures r.Passed? ==> r.value == old(counts)[o] && counts == old(counts)[o := r.value - decrement]
    {
      if counts[o] < decrement {
        return CheckFailed;
      }
      var before := counts[o];
      counts := counts[o := before - decrement];
      return Passed(before);
    }

    method Retain(p: Pointer)
      requires p.To? ==> p.target in counts
      modifies this`counts
      ensures counts == if p.To? then old(counts)[p.target := old(counts)[p.target] + 1] else old(counts)
    {
      if p.To? {
        var _ := FetchAdd(p.target, 1);
      }
    }

    /** Deletes the object when its last reference goes; a deleted object is not there any more. */
    method Release(p: Pointer) returns (ok: bool)
      requires p.To? ==> p.target in counts
      modifies this`counts, this`deleted
      ensures ok <==> p.Null? || old(counts)[p.target] >= 1
      ensures ok ==> counts == Released(old(counts), p) && deleted == old(deleted) + DeletedBy(old(counts), p)
    {
      if p.Null? {
        return true;
      }
      var before := FetchSub(p.target, 1);
      if before.CheckFailed? {
        return false;
      }
      if before.value == 1 {
        counts := counts - {p.target};
        deleted := deleted + [p.target];
      }
      return true;
    }

    /** `intrusive_ptr()` */
    method DefaultConstruct(h: Handle)
      requires Valid() && h !in handles
      modifies this`handles
      ensures Valid() && handles == old(handles)[h := Null]
    {
      NullIsCounted(handles, counts, h);
      handles := handles[h := Null];
    }

    /** A new object at an arbitrary new address, whose count is zero until the handle retains it. */
    method Create(h: Handle) returns (o: ObjectId)
      requires Valid() && h !in handles
      modifies this`handles, this`counts, this`created
      ensures Valid() && o !in old(created) && created == old(created) + [o] && handles == old(handles)[h := To(o)]
    {
      ghost var addresses := set i | 0 <= i < |created| :: created[i];
      ghost var unused := FreshNumber(addresses);
      assert unused !in created;
      o :| o !in created;
      CreateIsConserved(created, counts, deleted, o);
      RetainIsCounted(handles, counts, h, o);
      ghost var before := counts;
      counts := counts[o := 0];
      Retain(To(o));
      assert counts == before[o := 1];
      created := created + [o];
      handles := handles[h := To(o)];
    }

    /** What a handle points to has not been deleted. */
    lemma TargetIsAlive(h: Handle)
      requires Valid() && h in handles
      ensures handles[h].To? ==> handles[h].target in counts
    {
    }

    /** `intrusive_ptr(T*)` for a live object, such as one whose address was read from another handle. */
    method ConstructFromObject(h: Handle, o: ObjectId)
      requires Valid() && h !in handles && o in counts
      modifies this`handles, this`counts
      ensures Valid() && handles == old(handles)[h := To(o)]
    {
      hide AreCounted, IsConserved;
      RetainIsCounted(handles, counts, h, o);
      RecountIsConserved(created, counts, deleted, o, counts[o] + 1);
      Retain(To(o));
      handles := handles[h := To(o)];
    }

    method CopyConstruct(h: Handle, other: Handle)
      requires Valid() && h !in handles && other in handles
      modifies this`handles, this`counts
      ensures Valid() && handles == old(handles)[h := old(handles)[other]]
    {
      TargetIsLive(handles, counts, other);
      hide AreCounted, IsConserved;
      var p := handles[other];
      if p.To? {
        RetainIsCounted(handles, counts, h, p.target);
        RecountIsConserved(created, counts, deleted, p.target, counts[p.target] + 1);
      } else {
        NullIsCounted(handles, counts, h);
      }
      Retain(p);
      handles := handles[h := p];
    }

    /** Takes over the pointer of `other`, which is left null; no count changes. */
    method MoveConstruct(h: Handle, other: Handle)
      requires Valid() && h !in handles && other in handles
      modifies this`handles
      ensures Valid() && handles == old(handles)[h := old(handles)[other]][other := Null]
    {
      hide AreCounted, IsConserved;
      MoveIsCounted(handles, counts, h, other);
      handles := handles[h := handles[other]];
      handles := handles[other := Null];
    }

    method Swap(a: Handle, b: Handle)
      requires Valid() && a in handles && b in handles
      modifies this`handles
      ensures Valid() && handles == old(handles)[a := old(handles)[b]][b := old(handles)[a]]
    {
      SwapIsCounted(handles, counts, a, b);
      hide AreCounted, IsConserved;
      assert handles[b := handles[a]][a := handles[b]] == handles[a := handles[b]][b := handles[a]];
      var tmp := handles[b];
      handles := handles[b := handles[a]];
      handles := handles[a := tmp];
    }

    /** Releases what the handle points to; the check on the count cannot fail. */
    method Destroy(h: Handle) returns (ok: bool)
      requires Valid() && h in handles
      modifies this`handles, this`counts, this`deleted
      ensures ok && Valid() && handles == old(handles) - {h}
      ensures deleted == old(deleted) + LastReference(old(handles), h)
    {
      ReleaseIsValid(handles, counts, created, deleted, h);
      hide AreCounted, IsConserved, LastReference, Released, DeletedBy;
      var p := handles[h];
      ok := Release(p);
      handles := handles - {h};
    }

    /** Assignment takes its argument by value, swaps, and lets the argument release the old object. */
    method AssignFrom(h: Handle, argument: Handle)
      requires Valid() && h in handles && argument in handles && h != argument
      modifies this`handles, this`counts, this`deleted
      ensures Valid() && handles == old(handles)[h := old(handles)[argument]] - {argument}
    {
      hide AreCounted, IsConserved;
      Swap(h, argument);
      var ok := Destroy(argument);
    }

    /** `a = b`, also for the same handle; `argument` is the name of the parameter. */
    method CopyAssign(h: Handle, other: Handle, argument: Handle)
      requires Valid() && h in handles && other in handles && argument !in handles
      modifies this`handles, this`counts, this`deleted
      ensures Valid() && handles == old(handles)[h := old(handles)[other]]
    {
      hide AreCounted, IsConserved;
      CopyConstruct(argument, other);
      AssignFrom(h, argument);
      assert handles == old(handles)[h := old(handles)[other]];
    }

    /** `a = std::move(b)`: the source becomes null, unless it is the target itself. */
    method MoveAssign(h: Handle, other: Handle, argument: Handle)
      requires Valid() && h in handles && other in handles && argument !in handles
      modifies this`handles, this`counts, this`deleted
      ensures Valid() && handles == old(handles)[other := Null][h := old(handles)[other]]
    {
      hide AreCounted, IsConserved;
      MoveConstruct(argument, other);
      AssignFrom(h, argument);
      assert handles == old(handles)[other := Null][h := old(handles)[other]];
    }
  }

  /** The object that goes away with a handle: the one that no other handle points to. */
  ghost function LastReference(handles: Handles, h: Handle): seq<ObjectId>
    requires h in handles
  {
    if handles[h].To? && Pointing(handles, handles[h].target) == {h} then [handles[h].target] else []
  }

  lemma LastReferenceIsLast(handles: Handles, counts: map<ObjectId, nat>, h: Handle)
    requires AreCounted(handles, counts) && h in handles && (handles[h].To? ==> handles[h].target in counts)
    ensures LastReference(handles, h) == DeletedBy(counts, handles[h])
  {
    if handles[h].To? {
      var all := Pointing(handles, handles[h].target);
      assert h in all;
      if |all| == 1 {
        assert |all - {h}| == 0;
        assert all == {h};
      }
    }
  }

  lemma ReleaseIsValid(handles: Handles, counts: map<ObjectId, nat>, created: seq<ObjectId>, deleted: seq<ObjectId>, h: Handle)
    requires AreCounted(handles, counts) && IsConserved(created, counts, deleted) && h in handles
    ensures handles[h].To? ==> handles[h].target in counts && counts[handles[h].target] >= 1
    ensures AreCounted(handles - {h}, Released(counts, handles[h]))
    ensures IsConserved(created, Released(counts, handles[h]), deleted + DeletedBy(counts, handles[h]))
    ensures LastReference(handles, h) == DeletedBy(counts, handles[h])
  {
    ForgetIsCounted(handles, counts, h);
    LastReferenceIsLast(handles, counts, h);
    hide AreCounted, IsConserved, LastReference;
    assert deleted + [] == deleted;
    if handles[h].To? {
      var o := handles[h].target;
      if counts[o] == 1 {
        DeleteIsConserved(created, counts, deleted, o);
      } else {
        RecountIsConserved(created, counts, deleted, o, counts[o] - 1);
      }
    }
  }

  lemma CreateIsConserved(created: seq<ObjectId>, counts: map<ObjectId, nat>, deleted: seq<ObjectId>, o: ObjectId)
    requires IsConserved(created, counts, deleted) && o !in created
    ensures IsConserved(created + [o], counts[o := 1], deleted)
  {
  }

  lemma DeleteIsConserved(created: seq<ObjectId>, counts: map<ObjectId, nat>, deleted: seq<ObjectId>, o: ObjectId)
    requires IsConserved(created, counts, deleted) && o in counts
    ensures IsConserved(created, counts - {o}, deleted + [o])
  {
  }

  lemma RecountIsConserved(created: seq<ObjectId>, counts: map<ObjectId, nat>, deleted: seq<ObjectId>, o: ObjectId, n: nat)
    requires IsConserved(created, counts, deleted) && o in counts
    ensures IsConserved(created, counts[o := n], deleted)
  {
  }

  lemma TargetIsLive(handles: Handles, counts: map<ObjectId, nat>, h: Handle)
    requires AreCounted(handles, counts) && h in handles
    ensures handles[h].To? ==> handles[h].target in counts
  {
  }

  // ---------- Runs ----------

  datatype Op =
    | DefaultOp(h: Handle)
    | CreateOp(h: Handle)
    | AdoptOp(h: Handle, other: Handle)
    | CopyOp(h: Handle, other: Handle)
    | MoveOp(h: Handle, other: Handle)
    | CopyAssignOp(h: Handle, other: Handle)
    | MoveAssignOp(h: Handle, other: Handle)
    | DestroyOp(h: Handle)

  /** Handles are constructed once, and used between construction and destruction. */
  predicate IsAllowed(handles: Handles, op: Op) {
    match op
    case DefaultOp(h) => h !in handles
    case CreateOp(h) => h !in handles
    case AdoptOp(h, other) => h !in handles && other in handles && handles[other].To?
    case CopyOp(h, other) => h !in handles && other in handles
    case MoveOp(h, other) => h !in handles && other in handles
    case CopyAssignOp(h, other) => h in handles && other in handles
    case MoveAssignOp(h, other) => h in handles && other in handles
    case DestroyOp(h) => h in handles
  }

  /** What a step does to the handles and the objects ever created; a step that is not allowed does nothing. */
  ghost predicate IsEffect(op: Op, handles: Handles, created: seq<ObjectId>, handles': Handles, created': seq<ObjectId>) {
    match op
    case DefaultOp(h) =>
      created' == created && handles' == if h in handles then handles else handles[h := Null]
    case CreateOp(h) =>
      if h in handles then handles' == handles && created' == created
      else
        |created'| == |created| + 1 && created <= created' && created'[|created|] !in created &&
        handles' == handles[h := To(created'[|created|])]
    case AdoptOp(h, other) =>
      created' == created &&
      handles' == if h !in handles && other in handles && handles[other].To? then handles[h := handles[other]] else handles
    case CopyOp(h, other) =>
      created' == created && handles' == if h !in handles && other in handles then handles[h := handles[other]] else handles
    case MoveOp(h, other) =>
      created' == created &&
      handles' == if h !in handles && other in handles then handles[other := Null][h := handles[other]] else handles
    case CopyAssignOp(h, other) =>
      created' == created && handles' == if h in handles && other in handles then handles[h := handles[other]] else handles
    case MoveAssignOp(h, other) =>
      created' == created &&
      handles' == if h in handles && other in handles then handles[other := Null][h := handles[other]] else handles
    case DestroyOp(h) =>
      created' == created && handles' == handles - {h}
  }

  method Perform(program: PointerProgram, op: Op) returns (ok: bool)
    requires program.Valid()
    modifies program
    ensures ok && program.Valid()
    ensures IsEffect(op, old(program.handles), old(program.created), program.handles, program.created)
  {
    hide AreCounted, IsConserved;
    ok := true;
    if !IsAllowed(program.handles, op) {
      assert op.DestroyOp? ==> program.handles - {op.h} == program.handles;
      return;
    }
    ghost var unused := FreshNumber(program.handles.Keys);
    var argument: Handle :| argument !in program.handles;
    match op
    case DefaultOp(h) => program.DefaultConstruct(h);
    case CreateOp(h) => var _ := program.Create(h);
    case AdoptOp(h, other) =>
      program.TargetIsAlive(other);
      program.ConstructFromObject(h, program.handles[other].target);
    case CopyOp(h, other) => program.CopyConstruct(h, other);
    case MoveOp(h, other) =>
      assert program.handles[h := program.handles[other]][other := Null] == program.handles[other := Null][h := program.handles[other]];
      program.MoveConstruct(h, other);
    case CopyAssignOp(h, other) => program.CopyAssign(h, other, argument);
    case MoveAssignOp(h, other) => program.MoveAssign(h, other, argument);
    case DestroyOp(h) => ok := program.Destroy(h);
  }

  // ---------- Who shares what ----------

  /** The handles of a program in which `To(i)` is the object that was created as the `i`-th one. */
  datatype Sharing = Sharing(handles: Handles, objects: nat) {

    function Set(h: Handle, p: Pointer): Sharing {
      this.(handles := handles[h := p])
    }

    /** `h` takes over the pointer of `other`. */
    function Take(h: Handle, other: Handle): Sharing
      requires other in handles
    {
      this.(handles := handles[other := Null][h := handles[other]])
    }
  }

  function Step(s: Sharing, op: Op): Sharing {
    if !IsAllowed(s.handles, op) then s
    else
      match op
      case DefaultOp(h) => s.Set(h, Null)
      case CreateOp(h) => Sharing(s.handles[h := To(s.objects)], s.objects + 1)
      case AdoptOp(h, other) => s.Set(h, s.handles[other])
      case CopyOp(h, other) => s.Set(h, s.handles[other])
      case MoveOp(h, other) => s.Take(h, other)
      case CopyAssignOp(h, other) => s.Set(h, s.handles[other])
      case MoveAssignOp(h, other) => s.Take(h, other)
      case DestroyOp(h) => s.(handles := s.handles - {h})
  }

  function After(ops: seq<Op>): Sharing {
    if ops == [] then Sharing(map[], 0) else Step(After(ops[..|ops| - 1]), ops[|ops| - 1])
  }

  /** `handles` are those of `s`, with the objects at their addresses. */
  ghost predicate Realizes(s: Sharing, handles: Handles, created: seq<ObjectId>) {
    |created| == s.objects && handles.Keys == s.handles.Keys &&
    forall h :: h in handles ==>
      match s.handles[h]
      case Null => handles[h] == Null
      case To(i) => i < |created| && handles[h] == To(created[i])
  }

  lemma EffectRealizes(op: Op, s: Sharing, handles: Handles, created: seq<ObjectId>, handles': Handles, created': seq<ObjectId>)
    requires Realizes(s, handles, created) && IsEffect(op, handles, created, handles', created')
    ensures Realizes(Step(s, op), handles', created')
  {
    if op.DestroyOp? && op.h !in handles {
      assert handles - {op.h} == handles;
    }
  }

  /** All addresses differ. */
  lemma CreatedOnce(created: seq<ObjectId>, counts: map<ObjectId, nat>, deleted: seq<ObjectId>)
    requires IsConserved(created, counts, deleted)
    ensures forall i, j :: 0 <= i < j < |created| ==> created[i] != created[j]
    ensures forall i :: 0 <= i < |created| ==> (created[i] in deleted <==> created[i] !in counts)
  {
    forall i, j | 0 <= i < j < |created|
      ensures created[i] != created[j]
    {
      assert created == created[..j] + created[j..];
      assert multiset(created) == multiset(created[..j]) + multiset(created[j..]);
      assert created[..j][i] == created[i] && created[j..][0] == created[j];
      assert created[i] in multiset(created[..j]) && created[j] in multiset(created[j..]);
      assert multiset(created)[created[i]] == multiset(created[..j])[created[i]] + multiset(created[j..])[created[i]];
      assert created[i] in multiset(created);
    }
    forall i | 0 <= i < |created|
      ensures created[i] in deleted <==> created[i] !in counts
    {
      assert created[i] in multiset(created);
      assert multiset(created)[created[i]] == multiset(deleted)[created[i]] + multiset(counts.Keys)[created[i]];
    }
  }

  /** The outcome of a run: who shares what, with which counts, and what is left of the objects. */
  ghost predicate IsOutcome(s: Sharing, handles: Handles, counts: map<ObjectId, nat>, created: seq<ObjectId>, deleted: seq<ObjectId>) {
    handles.Keys == s.handles.Keys && |created| == s.objects &&
    (forall h :: h in handles ==> (handles[h].Null? <==> s.handles[h].Null?)) &&
    (forall g, h :: g in handles && h in handles ==> (handles[g] == handles[h] <==> s.handles[g] == s.handles[h])) &&
    forall i :: 0 <= i < s.objects ==>
      if Pointing(s.handles, i) == {} then created[i] in deleted && created[i] !in counts
      else created[i] !in deleted && created[i] in counts && counts[created[i]] == |Pointing(s.handles, i)|
  }

  lemma OutcomeIsShared(s: Sharing, handles: Handles, counts: map<ObjectId, nat>, created: seq<ObjectId>, deleted: seq<ObjectId>)
    requires Realizes(s, handles, created) && AreCounted(handles, counts) && IsConserved(created, counts, deleted)
    ensures IsOutcome(s, handles, counts, created, deleted)
  {
    CreatedOnce(created, counts, deleted);
    hide IsConserved;
    forall i | 0 <= i < s.objects
      ensures Pointing(s.handles, i) == Pointing(handles, created[i])
    {
      forall h
        ensures h in Pointing(s.handles, i) <==> h in Pointing(handles, created[i])
      {
      }
    }
    hide Realizes;
    forall i | 0 <= i < s.objects
      ensures created[i] in counts <==> Pointing(s.handles, i) != {}
    {
      if h :| h in Pointing(handles, created[i]) {
        assert handles[h] == To(created[i]);
      }
    }
  }

  /**
   Every run keeps the counts exact and no check on a count fails.  Handles
   share an object exactly when the steps made them share it, an object is
   deleted exactly when no handle is left that shares it, and when all handles
   are gone, every object that was created has been deleted, once.
   */
  method Run(ops: seq<Op>) returns (ok: bool, program: PointerProgram)
    ensures ok && program.Valid()
    ensures IsOutcome(After(ops), program.handles, program.counts, program.created, program.deleted)
    ensures program.handles == map[] ==> program.counts == map[] && multiset(program.deleted) == multiset(program.created)
  {
    hide IsOutcome, IsEffect, Step;
    program := new PointerProgram();
    ok := true;
    for k := 0 to |ops|
      invariant ok && program.Valid() && fresh(program)
      invariant Realizes(After(ops[..k]), program.handles, program.created)
    {
      ghost var handles, created := program.handles, program.created;
      ok := Perform(program, ops[k]);
      assert ops[..k + 1][..k] == ops[..k];
      EffectRealizes(ops[k], After(ops[..k]), handles, created, program.handles, program.created);
    }
    assert ops[..|ops|] == ops;
    OutcomeIsShared(After(ops), program.handles, program.counts, program.created, program.deleted);
    if program.handles == map[] {
      NothingLeaks(program.handles, program.counts, program.created, program.deleted);
    }
  }

  lemma NothingLeaks(handles: Handles, counts: map<ObjectId, nat>, created: seq<ObjectId>, deleted: seq<ObjectId>)
    requires AreCounted(handles, counts) && IsConserved(created, counts, deleted) && handles == map[]
    ensures counts == map[] && multiset(deleted) == multiset(created)
  {
  }
}
