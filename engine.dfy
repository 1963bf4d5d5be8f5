/**
 * The scripting-engine side that the element bindings drive: a compartment
 * holding the registered prototypes (a name-addressed, single-parent chain),
 * the property descriptors attached to them and the instance classes, and
 * script objects with the reserved slot that owns a node bundle.
 */
module Engine {
  import opened Wrappers
  import opened Dom
  import opened Numeric

  /** A value handed back to the engine through the return-value slot. */
  datatype JsVal = JsNull | JsString(s: string) | JsInt(i: int32)

  /**
   * How a native call ends: returning false to the engine (no script-visible
   * exception), returning true with the return-value slot written or left
   * alone, or a Rust task failure that unwinds out of the call.
   */
  datatype NativeOutcome = CallFailed | CallOk(rval: Option<JsVal>) | TaskFailure(message: string)

  datatype PropFlag = Enumerate | Shared | NativeAccessors

  /** The native functions the element bindings hand to the engine. */
  datatype NativeOp = GetTagNameOp | GetWidthOp | SetWidthOp | FinalizeOp

  /** One property descriptor: a name, flags and an optional getter and setter. */
  datatype PropSpec = PropSpec(name: string, tinyid: int, flags: set<PropFlag>,
                               getter: Option<NativeOp>, setter: Option<NativeOp>)

  /** A registered prototype: its parent's name and the properties defined on it. */
  datatype Proto = Proto(parent: Option<string>, props: seq<PropSpec>)

  predicate Distinct(c: seq<string>) {
    forall i, j :: 0 <= i < j < |c| ==> c[i] != c[j]
  }

  /** `n` has a definition number, and its parent, if any, is registered with a smaller one. */
  ghost predicate ParentFirst(p: map<string, Proto>, rank: map<string, nat>, n: string)
    requires n in p
  {
    && n in rank
    && (p[n].parent.Some? ==>
          p[n].parent.value in p && p[n].parent.value in rank && rank[p[n].parent.value] < rank[n])
  }

  /**
   * `rank` numbers the registered prototypes in the order they were defined,
   * and every parent is registered and was defined before its children.
   */
  ghost predicate WellOrdered(p: map<string, Proto>, rank: map<string, nat>) {
    forall n {:trigger ParentFirst(p, rank, n)} :: n in p ==> ParentFirst(p, rank, n)
  }

  /** Every definition number handed out so far is below `defined`. */
  ghost predicate NumberedBelow(rank: map<string, nat>, defined: nat, n: string) {
    n in rank ==> rank[n] < defined
  }

  /** The definition number of a registered prototype. */
  ghost function Rank(p: map<string, Proto>, rank: map<string, nat>, n: string): nat
    requires WellOrdered(p, rank) && n in p
  {
    assert ParentFirst(p, rank, n);
    rank[n]
  }

  /**
   * The prototype chain of `n`: `n`, its parent, its grandparent, ... up to a
   * prototype without a parent. It is finite because every step moves to an
   * earlier definition.
   */
  function Chain(p: map<string, Proto>, rank: map<string, nat>, n: string): (c: seq<string>)
    requires WellOrdered(p, rank) && n in p
    ensures |c| >= 1 && c[0] == n
    ensures forall m :: m in c ==> m in p
    ensures forall i {:trigger p[c[i]]} :: 0 <= i < |c| - 1 ==> p[c[i]].parent == Some(c[i + 1])
    ensures p[c[|c| - 1]].parent.None?
    decreases Rank(p, rank, n)
  {
    assert ParentFirst(p, rank, n);
    match p[n].parent
    case None => [n]
    case Some(q) => [n] + Chain(p, rank, q)
  }

  /** Every prototype on the chain of `n` was defined no later than `n`. */
  lemma {:induction false} ChainDefinedBefore(p: map<string, Proto>, rank: map<string, nat>, n: string)
    requires WellOrdered(p, rank) && n in p
    ensures forall m :: m in Chain(p, rank, n) ==> Rank(p, rank, m) <= Rank(p, rank, n)
    decreases Rank(p, rank, n)
  {
    assert ParentFirst(p, rank, n);
    match p[n].parent
    case None =>
    case Some(q) =>
      ChainDefinedBefore(p, rank, q);
  }

  /** A prototype chain has no cycle: no name occurs on it twice. */
  lemma {:induction false} ChainAcyclic(p: map<string, Proto>, rank: map<string, nat>, n: string)
    requires WellOrdered(p, rank) && n in p
    ensures Distinct(Chain(p, rank, n))
    decreases Rank(p, rank, n)
  {
    assert ParentFirst(p, rank, n);
    match p[n].parent
    case None =>
    case Some(q) =>
      ChainAcyclic(p, rank, q);
      ChainDefinedBefore(p, rank, q);
      var c, t := Chain(p, rank, n), Chain(p, rank, q);
      assert c == [n] + t;
      forall i, j | 0 <= i < j < |c| ensures c[i] != c[j] {
        if i == 0 {
          assert c[j] == t[j - 1];
        } else {
          assert c[i] == t[i - 1] && c[j] == t[j - 1];
        }
      }
  }

  /** Registering more prototypes leaves the chains of the earlier ones as they were. */
  lemma {:induction false} ChainUnchangedByLaterDefinitions(p0: map<string, Proto>, rank0: map<string, nat>,
                                                           p: map<string, Proto>, rank: map<string, nat>, n: string)
    requires WellOrdered(p0, rank0) && WellOrdered(p, rank) && n in p0
    requires forall m :: m in p0 ==> m in p && p[m] == p0[m]
    ensures Chain(p, rank, n) == Chain(p0, rank0, n)
    decreases Rank(p0, rank0, n)
  {
    assert ParentFirst(p0, rank0, n);
    match p0[n].parent
    case None =>
    case Some(q) =>
      ChainUnchangedByLaterDefinitions(p0, rank0, p, rank, q);
  }

  /** A descriptor named `name` in `specs` (the first one, by the body). */
  function FindSpec(specs: seq<PropSpec>, name: string): (r: Option<PropSpec>)
    ensures r.Some? ==> r.value in specs && r.value.name == name
    ensures r.None? <==> forall s :: s in specs ==> s.name != name
  {
    if specs == [] then None
    else if specs[0].name == name then Some(specs[0])
    else FindSpec(specs[1..], name)
  }

  /**
   * Property lookup along a prototype chain, trying the prototypes in chain
   * order (the precedence is stated by `FindPropertyCons` and
   * `FindPropertyAppend`): the descriptor that a script access to `name`
   * resolves to.
   */
  function FindProperty(p: map<string, Proto>, chain: seq<string>, name: string): (r: Option<PropSpec>)
    requires forall m :: m in chain ==> m in p
    ensures r.Some? ==> exists m :: m in chain && r.value in p[m].props && r.value.name == name
    ensures r.None? <==> forall m :: m in chain ==> FindSpec(p[m].props, name).None?
  {
    if chain == [] then None
    else match FindSpec(p[chain[0]].props, name)
      case Some(s) => Some(s)
      case None => FindProperty(p, chain[1..], name)
  }

  /** Regrouping a chain's head onto its tail. */
  lemma ConsOnto<T>(x: T, ys: seq<T>, t: seq<T>)
    ensures [x] + (ys + t) == ([x] + ys) + t
  {
  }

  /** A two-element sequence is its first element followed by its second. */
  lemma PairSplit<T>(x: T, y: T)
    ensures [x, y] == [x] + [y]
  {
  }

  /** Looking up along `[n] + rest` tries `n`'s own properties first. */
  lemma FindPropertyCons(p: map<string, Proto>, n: string, rest: seq<string>, name: string)
    requires n in p && forall m :: m in rest ==> m in p
    ensures FindProperty(p, [n] + rest, name) ==
              if FindSpec(p[n].props, name).Some? then FindSpec(p[n].props, name) else FindProperty(p, rest, name)
  {
    assert ([n] + rest)[0] == n && ([n] + rest)[1..] == rest;
  }

  /** Looking up along `a + b` finds what `a` has, and otherwise what `b` has. */
  lemma {:induction false} FindPropertyAppend(p: map<string, Proto>, a: seq<string>, b: seq<string>, name: string)
    requires forall m :: m in a ==> m in p
    requires forall m :: m in b ==> m in p
    ensures FindProperty(p, a + b, name) ==
              if FindProperty(p, a, name).Some? then FindProperty(p, a, name) else FindProperty(p, b, name)
  {
    if a != [] {
      assert (a + b)[0] == a[0] && (a + b)[1..] == a[1..] + b;
      FindPropertyAppend(p, a[1..], b, name);
    } else {
      assert a + b == b;
    }
  }

  /** A lookup only depends on the prototypes on the chain. */
  lemma {:induction false} FindPropertyAgrees(p0: map<string, Proto>, p: map<string, Proto>, chain: seq<string>, name: string)
    requires forall m :: m in chain ==> m in p0 && m in p && p[m] == p0[m]
    ensures FindProperty(p, chain, name) == FindProperty(p0, chain, name)
  {
    if chain != [] {
      FindPropertyAgrees(p0, p, chain[1..], name);
    }
  }

  /**
   * A compartment: the prototypes stashed by name, the instance classes with
   * their finalize hooks, and the descriptor arrays kept alive for the
   * engine. `rank` numbers the prototypes in the order they were defined
   * and `defined` counts the definitions so far.
   */
  class Compartment {
    var protos: map<string, Proto>
    var classes: map<string, NativeOp>
    var globalProps: seq<seq<PropSpec>>
    ghost var rank: map<string, nat>
    ghost var defined: nat

    ghost predicate Valid()
      reads this
    {
      && WellOrdered(protos, rank)
      && forall n {:trigger NumberedBelow(rank, defined, n)} :: NumberedBelow(rank, defined, n)
    }

    /** A new compartment: no prototypes, no classes, no kept descriptor arrays. */
    constructor ()
      ensures Valid()
      ensures protos == map[] && classes == map[] && globalProps == [] && rank == map[] && defined == 0
    {
      protos := map[];
      classes := map[];
      globalProps := [];
      rank := map[];
      defined := 0;
    }

    /**
     * Defines the empty prototype `name` whose prototype is `parent`: a new
     * name, and a parent that is already defined.
     */
    method DefineEmptyPrototype(name: string, parent: Option<string>)
      requires Valid()
      requires name !in protos && (parent.Some? ==> parent.value in protos)
      modifies this
      ensures Valid()
      ensures protos == old(protos)[name := Proto(parent, [])]
      ensures rank == old(rank)[name := old(defined)] && defined == old(defined) + 1
      ensures classes == old(classes) && globalProps == old(globalProps)
    {
      ghost var p0, r0, d0 := protos, rank, defined;
      protos := protos[name := Proto(parent, [])];
      rank := rank[name := defined];
      defined := defined + 1;
      forall n | n in protos ensures ParentFirst(protos, rank, n) {
        if n != name {
          assert ParentFirst(p0, r0, n);
        }
        if parent.Some? {
          assert ParentFirst(p0, r0, parent.value) && NumberedBelow(r0, d0, parent.value);
        }
      }
      forall n ensures NumberedBelow(rank, defined, n) {
        assert NumberedBelow(r0, d0, n);
      }
    }

    /**
     * `JS_DefineProperties`: appends `specs` to the properties of the
     * prototype `name`. The names are new on that prototype, so every
     * descriptor stays the one a lookup of its name finds there.
     */
    method DefineProperties(name: string, specs: seq<PropSpec>)
      requires Valid() && name in protos
      requires forall s :: s in specs ==> FindSpec(protos[name].props, s.name).None?
      modifies this
      ensures Valid()
      ensures protos == old(protos)[name := Proto(old(protos)[name].parent, old(protos)[name].props + specs)]
      ensures rank == old(rank) && defined == old(defined)
      ensures classes == old(classes) && globalProps == old(globalProps)
    {
      ghost var p0 := protos;
      protos := protos[name := Proto(protos[name].parent, protos[name].props + specs)];
      forall n | n in protos ensures ParentFirst(protos, rank, n) {
        assert ParentFirst(p0, rank, n);
      }
    }

    /** Keeps a descriptor array alive for as long as the compartment. */
    method PushGlobalProps(specs: seq<PropSpec>)
      requires Valid()
      modifies this
      ensures Valid()
      ensures globalProps == old(globalProps) + [specs]
      ensures protos == old(protos) && rank == old(rank) && defined == old(defined) && classes == old(classes)
    {
      globalProps := globalProps + [specs];
    }

    /** Registers the instance class `name`, whose objects are finalized by `finalize`. */
    method RegisterClass(name: string, finalize: NativeOp)
      requires Valid()
      modifies this
      ensures Valid()
      ensures classes == old(classes)[name := finalize]
      ensures protos == old(protos) && rank == old(rank) && defined == old(defined) && globalProps == old(globalProps)
    {
      classes := classes[name := finalize];
    }

    /**
     * `new_object_with_proto`: a new object of the registered class
     * `className` whose prototype is `protoName`. It fails when either is
     * unknown, or when the engine itself cannot construct the object;
     * `allocates` is the engine's own outcome (false for, say, out of memory).
     */
    method NewObjectWithProto(className: string, protoName: string, allocates: bool) returns (r: Result<JsObject, string>)
      ensures r.Success? <==> className in classes && protoName in protos && allocates
      ensures r.Success? ==> fresh(r.value) && r.value.className == className && r.value.proto == protoName
                             && r.value.slot0.None? && r.value.ownership == NoBundle
    {
      if className in classes && protoName in protos && allocates {
        var obj := new JsObject(className, protoName);
        r := Success(obj);
      } else {
        r := Failure("new_object_with_proto failed");
      }
    }
  }

  /**
   * Who owns a bundle put into an object's private slot: nobody yet, the
   * object, or (after finalization) the finalize hook that reclaimed it.
   */
  datatype Ownership = NoBundle | Holding(bundle: Bundle) | Reclaimed(bundle: Bundle)

  /**
   * A script object of an instance class. Its one reserved slot (slot 0)
   * carries the private pointer to the bundle of the node it wraps.
   */
  class JsObject {
    const className: string
    const proto: string
    var slot0: Option<Bundle>
    ghost var ownership: Ownership

    /** Slot 0 holds exactly the bundle whose ownership was handed to this object. */
    ghost predicate Valid()
      reads this
    {
      match ownership
      case NoBundle => slot0.None?
      case Holding(b) => slot0 == Some(b)
      case Reclaimed(b) => slot0 == Some(b)
    }

    constructor (className: string, proto: string)
      ensures this.className == className && this.proto == proto
      ensures slot0.None? && ownership == NoBundle && Valid()
    {
      this.className := className;
      this.proto := proto;
      slot0 := None;
      ownership := NoBundle;
    }
  }
}
