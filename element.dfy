/**
 * The element bindings: the prototypes `init` registers for elements, the
 * choice of prototype and the bundle hand-over in `create`, the reclaim in
 * `finalize`, and the `tagName` and image `width` accessors.
 */
module ElementBindings {
  import opened Wrappers
  import opened Numeric
  import opened Decimal
  import opened Dom
  import opened Engine

  const InstanceClassName: string := "GenericElementInstance"
  const NotAnElement: string := "why is this not an element?"
  const NotAnImage: string := "why is this not an image element?"
  const CreateNeedsElement: string := "element::create only handles elements"

  /** The prototypes `init` defines, in the order it defines them. */
  const ElementInterfaces: seq<string> :=
    ["Element", "HTMLElement", "HTMLDivElement", "HTMLScriptElement", "HTMLHeadElement", "HTMLImageElement"]

  const AccessorFlags: set<PropFlag> := {Enumerate, Shared, NativeAccessors}

  /** `tagName`: a getter and a null setter, so read-only. */
  const TagNameSpec: PropSpec := PropSpec("tagName", 0, AccessorFlags, Some(GetTagNameOp), None)

  /** `width`: a getter and a setter. */
  const WidthSpec: PropSpec := PropSpec("width", 0, AccessorFlags, Some(GetWidthOp), Some(SetWidthOp))

  /** The compartment's prototypes `p0` with the ones `init` defines added. */
  function WithElementPrototypes(p0: map<string, Proto>): map<string, Proto> {
    p0["Element" := Proto(Some("Node"), [TagNameSpec])]
      ["HTMLElement" := Proto(Some("Element"), [])]
      ["HTMLDivElement" := Proto(Some("HTMLElement"), [])]
      ["HTMLScriptElement" := Proto(Some("HTMLElement"), [])]
      ["HTMLHeadElement" := Proto(Some("HTMLElement"), [])]
      ["HTMLImageElement" := Proto(Some("HTMLElement"), [WidthSpec])]
  }

  /** The definition numbers `init` gives its prototypes, counting on from `d`. */
  ghost function InitRanks(r0: map<string, nat>, d: nat): map<string, nat> {
    r0["Element" := d]["HTMLElement" := d + 1]["HTMLDivElement" := d + 2]
      ["HTMLScriptElement" := d + 3]["HTMLHeadElement" := d + 4]["HTMLImageElement" := d + 5]
  }

  /**
   * What `init` needs of the compartment: the `Node` prototype is defined
   * (the node bindings are initialized first) and none of the names `init`
   * defines is taken yet (it runs once per compartment).
   */
  predicate InitCanRun(p: map<string, Proto>) {
    && "Node" in p
    && "Element" !in p && "HTMLElement" !in p && "HTMLDivElement" !in p
    && "HTMLScriptElement" !in p && "HTMLHeadElement" !in p && "HTMLImageElement" !in p
  }

  /**
   * One step of `init`: defines the empty prototype `name` under `parent`,
   * keeps the descriptor array `attrs` alive in the compartment, and attaches
   * its properties to the new prototype.
   */
  method DefineWithProperties(c: Compartment, name: string, parent: string, attrs: seq<PropSpec>)
    requires c.Valid() && name !in c.protos && parent in c.protos
    modifies c
    ensures c.Valid()
    ensures c.protos == old(c.protos)[name := Proto(Some(parent), attrs)]
    ensures c.globalProps == old(c.globalProps) + [attrs]
    ensures c.rank == old(c.rank)[name := old(c.defined)] && c.defined == old(c.defined) + 1
    ensures c.classes == old(c.classes)
  {
    c.DefineEmptyPrototype(name, Some(parent));
    c.PushGlobalProps(attrs);
    c.DefineProperties(name, attrs);
    assert [] + attrs == attrs;
  }

  /**
   * `init`: defines the element prototypes in order, attaches `tagName` to
   * `Element` and `width` to `HTMLImageElement`, keeps both descriptor arrays
   * alive, and registers the instance class with the element finalize hook.
   */
  method Init(c: Compartment)
    requires c.Valid() && InitCanRun(c.protos)
    modifies c
    ensures c.Valid()
    ensures c.protos == WithElementPrototypes(old(c.protos))
    ensures c.globalProps == old(c.globalProps) + [[TagNameSpec], [WidthSpec]]
    ensures c.classes == old(c.classes)[InstanceClassName := FinalizeOp]
    ensures c.rank == InitRanks(old(c.rank), old(c.defined)) && c.defined == old(c.defined) + 6
  {
    ghost var g0 := c.globalProps;
    assert g0 + [[TagNameSpec], [WidthSpec]] == g0 + [[TagNameSpec]] + [[WidthSpec]];
    DefineWithProperties(c, "Element", "Node", [TagNameSpec]);
    c.RegisterClass(InstanceClassName, FinalizeOp);

    c.DefineEmptyPrototype("HTMLElement", Some("Element"));
    c.DefineEmptyPrototype("HTMLDivElement", Some("HTMLElement"));
    c.DefineEmptyPrototype("HTMLScriptElement", Some("HTMLElement"));
    c.DefineEmptyPrototype("HTMLHeadElement", Some("HTMLElement"));

    DefineWithProperties(c, "HTMLImageElement", "HTMLElement", [WidthSpec]);
  }

  /**
   * The interface whose prototype `create` gives the object wrapping a node:
   * the specific HTML interface for the four element kinds that have one,
   * `HTMLElement` for every other element, and a failure for a node that is
   * not an element.
   */
  function SelectPrototype(kind: NodeKind): (r: Result<string, string>)
    ensures r.Success? <==> kind.Element?
    ensures r.Failure? ==> r.error == CreateNeedsElement
    ensures r.Success? ==> r.value in ElementInterfaces && r.value != "Element"
    ensures r.Success? ==> (r.value == "HTMLElement" <==> kind.data.kind == OtherElement)
  {
    match kind
    case Element(ed) =>
      Success(match ed.kind
        case HTMLDivElement => "HTMLDivElement"
        case HTMLHeadElement => "HTMLHeadElement"
        case HTMLImageElement => "HTMLImageElement"
        case HTMLScriptElement => "HTMLScriptElement"
        case OtherElement => "HTMLElement")
    case _ => Failure(CreateNeedsElement)
  }

  /** Two elements of different specific kinds never share a prototype. */
  lemma SelectPrototypeInjective(k1: NodeKind, k2: NodeKind)
    requires k1.Element? && k2.Element?
    requires SelectPrototype(k1) == SelectPrototype(k2)
    ensures k1.data.kind == k2.data.kind
  {
  }

  /** The interfaces between a selected interface and `Node`, most derived first. */
  function InterfacePath(name: string): seq<string> {
    if name == "HTMLElement" then ["HTMLElement", "Element"] else [name] + ["HTMLElement", "Element"]
  }

  /**
   * `p` keeps every prototype of `p0` and holds the prototypes `init`
   * defines, with their parents and properties.
   */
  ghost predicate HoldsElementPrototypes(p0: map<string, Proto>, p: map<string, Proto>) {
    && (forall m :: m in p0 ==> m in p && p[m] == p0[m])
    && "Element" in p && p["Element"] == Proto(Some("Node"), [TagNameSpec])
    && "HTMLElement" in p && p["HTMLElement"] == Proto(Some("Element"), [])
    && "HTMLDivElement" in p && p["HTMLDivElement"] == Proto(Some("HTMLElement"), [])
    && "HTMLScriptElement" in p && p["HTMLScriptElement"] == Proto(Some("HTMLElement"), [])
    && "HTMLHeadElement" in p && p["HTMLHeadElement"] == Proto(Some("HTMLElement"), [])
    && "HTMLImageElement" in p && p["HTMLImageElement"] == Proto(Some("HTMLElement"), [WidthSpec])
  }

  /** What `init` leaves behind holds the element prototypes on top of what was there. */
  lemma InitHoldsElementPrototypes(p0: map<string, Proto>)
    requires InitCanRun(p0)
    ensures HoldsElementPrototypes(p0, WithElementPrototypes(p0))
  {
  }

  /** In a registry holding the element prototypes, `Element`'s chain continues with `Node`'s earlier chain. */
  lemma ElementChain(p0: map<string, Proto>, rank0: map<string, nat>,
                     p: map<string, Proto>, rank: map<string, nat>)
    requires WellOrdered(p0, rank0) && "Node" in p0
    requires WellOrdered(p, rank) && HoldsElementPrototypes(p0, p)
    ensures Chain(p, rank, "Element") == ["Element"] + Chain(p0, rank0, "Node")
  {
    ChainUnchangedByLaterDefinitions(p0, rank0, p, rank, "Node");
    assert p["Element"].parent == Some("Node");
  }

  /** In a registry holding the element prototypes, `HTMLElement`'s chain continues with `Element` and then `Node`'s. */
  lemma HTMLElementChain(p0: map<string, Proto>, rank0: map<string, nat>,
                         p: map<string, Proto>, rank: map<string, nat>)
    requires WellOrdered(p0, rank0) && "Node" in p0
    requires WellOrdered(p, rank) && HoldsElementPrototypes(p0, p)
    ensures Chain(p, rank, "HTMLElement") == ["HTMLElement", "Element"] + Chain(p0, rank0, "Node")
  {
    ElementChain(p0, rank0, p, rank);
    assert p["HTMLElement"].parent == Some("Element");
    assert Chain(p, rank, "HTMLElement") == ["HTMLElement"] + Chain(p, rank, "Element");
    ConsOnto("HTMLElement", ["Element"], Chain(p0, rank0, "Node"));
    PairSplit("HTMLElement", "Element");
  }

  /**
   * In a registry holding the element prototypes, the chain of every
   * interface `create` can select runs through `HTMLElement` and `Element`
   * into the chain `Node` had before, and has no cycle.
   */
  lemma {:induction false} InterfaceChain(p0: map<string, Proto>, rank0: map<string, nat>,
                                          p: map<string, Proto>, rank: map<string, nat>, name: string)
    requires WellOrdered(p0, rank0) && "Node" in p0
    requires WellOrdered(p, rank) && HoldsElementPrototypes(p0, p)
    requires name in ElementInterfaces && name != "Element"
    ensures name in p
    ensures Chain(p, rank, name) == InterfacePath(name) + Chain(p0, rank0, "Node")
    ensures Distinct(Chain(p, rank, name))
  {
    HTMLElementChain(p0, rank0, p, rank);
    var tail := Chain(p0, rank0, "Node");
    if name != "HTMLElement" {
      var up := Chain(p, rank, "HTMLElement");
      assert name in p && p[name].parent == Some("HTMLElement");
      assert Chain(p, rank, name) == [name] + up;
      ConsOnto(name, ["HTMLElement", "Element"], tail);
    }
    ChainAcyclic(p, rank, name);
  }

  /**
   * After `init`, the prototype `create` selects for an element is
   * registered, and its chain runs through `HTMLElement` and `Element` into
   * the chain of `Node` as it was before, without a cycle.
   */
  lemma SelectedPrototypeChain(p0: map<string, Proto>, rank0: map<string, nat>,
                               p: map<string, Proto>, rank: map<string, nat>, kind: NodeKind)
    requires WellOrdered(p0, rank0) && "Node" in p0
    requires WellOrdered(p, rank) && HoldsElementPrototypes(p0, p)
    requires kind.Element?
    ensures SelectPrototype(kind).Success? && SelectPrototype(kind).value in p
    ensures Chain(p, rank, SelectPrototype(kind).value)
              == InterfacePath(SelectPrototype(kind).value) + Chain(p0, rank0, "Node")
    ensures Distinct(Chain(p, rank, SelectPrototype(kind).value))
  {
    InterfaceChain(p0, rank0, p, rank, SelectPrototype(kind).value);
  }

  /** Along `HTMLElement` and `Element`, `tagName` is found on `Element` and `width` nowhere. */
  lemma UpperPathLookups(p0: map<string, Proto>, p: map<string, Proto>)
    requires HoldsElementPrototypes(p0, p)
    ensures FindProperty(p, ["HTMLElement", "Element"], "tagName") == Some(TagNameSpec)
    ensures FindProperty(p, ["HTMLElement", "Element"], "width") == None
  {
    PairSplit("HTMLElement", "Element");
    FindPropertyCons(p, "HTMLElement", ["Element"], "tagName");
    FindPropertyCons(p, "HTMLElement", ["Element"], "width");
    assert ["Element"] == ["Element"] + [];
    FindPropertyCons(p, "Element", [], "tagName");
    FindPropertyCons(p, "Element", [], "width");
  }

  /** The four specific interfaces hang off `HTMLElement`; only `HTMLImageElement` has a property, `width`. */
  lemma SpecificInterfaceProps(p0: map<string, Proto>, p: map<string, Proto>, name: string)
    requires HoldsElementPrototypes(p0, p)
    requires name in ElementInterfaces && name != "Element" && name != "HTMLElement"
    ensures name in p && p[name].parent == Some("HTMLElement")
    ensures FindSpec(p[name].props, "tagName") == None
    ensures FindSpec(p[name].props, "width") == if name == "HTMLImageElement" then Some(WidthSpec) else None
  {
    if name != "HTMLImageElement" {
      assert p[name].props == [];
    }
  }

  /**
   * In a registry holding the element prototypes, looking up `tagName` on the
   * chain of any interface `create` can select finds the read-only accessor
   * of `Element`.
   */
  lemma TagNameResolves(p0: map<string, Proto>, rank0: map<string, nat>,
                        p: map<string, Proto>, rank: map<string, nat>, name: string)
    requires WellOrdered(p0, rank0) && "Node" in p0
    requires WellOrdered(p, rank) && HoldsElementPrototypes(p0, p)
    requires name in ElementInterfaces && name != "Element"
    ensures name in p
    ensures FindProperty(p, Chain(p, rank, name), "tagName") == Some(TagNameSpec)
  {
    InterfaceChain(p0, rank0, p, rank, name);
    var path := InterfacePath(name);
    FindPropertyAppend(p, path, Chain(p0, rank0, "Node"), "tagName");
    UpperPathLookups(p0, p);
    if name != "HTMLElement" {
      SpecificInterfaceProps(p0, p, name);
      FindPropertyCons(p, name, ["HTMLElement", "Element"], "tagName");
    }
  }

  /**
   * In a registry holding the element prototypes, looking up `width` on the
   * chain of an interface `create` can select finds the image accessor for
   * `HTMLImageElement`, and for the others only what the chain of `Node`
   * offers.
   */
  lemma WidthResolves(p0: map<string, Proto>, rank0: map<string, nat>,
                      p: map<string, Proto>, rank: map<string, nat>, name: string)
    requires WellOrdered(p0, rank0) && "Node" in p0
    requires WellOrdered(p, rank) && HoldsElementPrototypes(p0, p)
    requires name in ElementInterfaces && name != "Element"
    ensures name in p
    ensures FindProperty(p, Chain(p, rank, name), "width") ==
              if name == "HTMLImageElement" then Some(WidthSpec)
              else FindProperty(p0, Chain(p0, rank0, "Node"), "width")
  {
    InterfaceChain(p0, rank0, p, rank, name);
    var tail := Chain(p0, rank0, "Node");
    var path := InterfacePath(name);
    FindPropertyAppend(p, path, tail, "width");
    FindPropertyAgrees(p0, p, tail, "width");
    UpperPathLookups(p0, p);
    if name != "HTMLElement" {
      SpecificInterfaceProps(p0, p, name);
      FindPropertyCons(p, name, ["HTMLElement", "Element"], "width");
    }
  }

  /**
   * `tagName` sits on `Element` only and has no setter; `width` sits on
   * `HTMLImageElement` only and has both accessors; both are enumerable,
   * shared and native accessors.
   */
  lemma AccessorPlacement(p0: map<string, Proto>, p: map<string, Proto>)
    requires HoldsElementPrototypes(p0, p)
    ensures forall n :: n in ElementInterfaces ==> n in p
    ensures forall n :: n in ElementInterfaces ==> (FindSpec(p[n].props, "tagName").Some? <==> n == "Element")
    ensures forall n :: n in ElementInterfaces ==> (FindSpec(p[n].props, "width").Some? <==> n == "HTMLImageElement")
    ensures TagNameSpec.getter.Some? && TagNameSpec.setter.None?
    ensures WidthSpec.getter.Some? && WidthSpec.setter.Some?
    ensures TagNameSpec.flags == WidthSpec.flags == {Enumerate, Shared, NativeAccessors}
  {
  }

  /**
   * `init`'s definition order puts every parent before its children: the
   * numbers it hands out make the enlarged registry well ordered.
   */
  lemma {:induction false} InitRegistryWellOrdered(p0: map<string, Proto>, rank0: map<string, nat>, d: nat)
    requires WellOrdered(p0, rank0) && InitCanRun(p0)
    requires forall n {:trigger NumberedBelow(rank0, d, n)} :: NumberedBelow(rank0, d, n)
    ensures WellOrdered(WithElementPrototypes(p0), InitRanks(rank0, d))
  {
    var p, rank := WithElementPrototypes(p0), InitRanks(rank0, d);
    forall n | n in p ensures ParentFirst(p, rank, n) {
      if n !in ElementInterfaces {
        assert ParentFirst(p0, rank0, n);
        if p0[n].parent.Some? {
          assert NumberedBelow(rank0, d, p0[n].parent.value);
        }
      } else if n == "Element" {
        assert ParentFirst(p0, rank0, "Node");
        assert NumberedBelow(rank0, d, "Node");
      }
    }
  }

  /**
   * `create`: chooses the prototype from the node's kind, asks the
   * compartment for a new instance of the element class with that
   * prototype, and hands the bundle of node and scope to the object's slot 0.
   * A non-element node, a compartment where the class or the prototype is
   * missing, or an engine that cannot construct the object (`allocates` is
   * false) aborts the task before any bundle is installed.
   */
  method Create(c: Compartment, node: Node, scope: NodeScope, allocates: bool) returns (r: Result<JsObject, string>)
    ensures !node.kind.Element? ==> r == Failure(CreateNeedsElement)
    ensures node.kind.Element? ==>
              (r.Success? <==> InstanceClassName in c.classes && SelectPrototype(node.kind).value in c.protos
                               && allocates)
    ensures r.Success? ==>
              && fresh(r.value) && r.value.Valid()
              && r.value.className == InstanceClassName
              && r.value.proto == SelectPrototype(node.kind).value
              && r.value.slot0 == Some(Bundle(node, scope))
              && r.value.ownership == Holding(Bundle(node, scope))
  {
    var proto := SelectPrototype(node.kind);
    if proto.Failure? {
      return Failure(proto.error);
    }
    var made := c.NewObjectWithProto(InstanceClassName, proto.value, allocates);
    if made.Failure? {
      return Failure(made.error);
    }
    var obj := made.value;
    obj.slot0 := Some(Bundle(node, scope));
    obj.ownership := Holding(Bundle(node, scope));
    r := Success(obj);
  }

  /**
   * `finalize`: reads the bundle back out of slot 0 and takes ownership of
   * it, so that it is released; the object then no longer owns it.
   */
  method Finalize(obj: JsObject) returns (reclaimed: Bundle)
    requires obj.Valid() && obj.ownership.Holding?
    modifies obj`ownership
    ensures reclaimed == old(obj.ownership.bundle)
    ensures obj.ownership == Reclaimed(reclaimed) && obj.Valid()
  {
    reclaimed := obj.slot0.value;
    obj.ownership := Reclaimed(reclaimed);
  }

  /**
   * A wrapper for a node: a new element object created for the node and
   * later finalized gives back exactly the node and scope it was created
   * with (slot 0 is written once by `create` and read once by `finalize`).
   */
  method CreateThenFinalize(c: Compartment, node: Node, scope: NodeScope, allocates: bool)
    returns (r: Result<Bundle, string>)
    ensures r.Success? <==> node.kind.Element? && InstanceClassName in c.classes
                            && SelectPrototype(node.kind).value in c.protos && allocates
    ensures !node.kind.Element? ==> r == Failure(CreateNeedsElement)
    ensures r.Success? ==> r.value == Bundle(node, scope)
  {
    var made := Create(c, node, scope, allocates);
    if made.Failure? {
      return Failure(made.error);
    }
    var b := Finalize(made.value);
    r := Success(b);
  }

  /** An object whose slot 0 still holds the bundle it was given by `create`. */
  ghost predicate Live(obj: JsObject)
    reads obj
  {
    obj.Valid() && obj.ownership.Holding?
  }

  /** The node a live wrapper stands for. */
  function WrappedNode(obj: JsObject): (n: Node)
    reads obj
    requires Live(obj)
    ensures n == obj.ownership.bundle.node
  {
    obj.slot0.value.node
  }

  /**
   * `getTagName`: fails for a null receiver; otherwise succeeds with the tag
   * name of an element, and with null for any other node.
   */
  method GetTagName(receiver: JsObject?) returns (r: NativeOutcome)
    requires receiver != null ==> Live(receiver)
    ensures receiver == null <==> r == CallFailed
    ensures receiver != null && WrappedNode(receiver).kind.Element? ==>
              r == CallOk(Some(JsString(WrappedNode(receiver).kind.data.tagName)))
    ensures receiver != null && !WrappedNode(receiver).kind.Element? ==> r == CallOk(Some(JsNull))
  {
    if receiver == null {
      return CallFailed;
    }
    var node := WrappedNode(receiver);
    match node.kind {
      case Element(ed) =>
        r := CallOk(Some(JsString(ed.tagName)));
      case _ =>
        r := CallOk(Some(JsNull));
    }
  }

  /**
   * The width the getter reports for the layout reply: the content box width
   * (0 when layout has no box), masked with `i32::max_value`. The mask keeps
   * the low 31 bits, so the result is the width modulo 2^31: it lies in
   * [0, 2^31 - 1] and equals the width whenever the width already does.
   */
  function ReportedWidth(contentBox: Option<int64>): (v: int32)
    ensures 0 <= v as int <= I32Max
    ensures contentBox.None? ==> v == 0
    ensures contentBox.Some? ==> v as int == contentBox.value as int % 0x8000_0000
    ensures contentBox.Some? && 0 <= contentBox.value as int <= I32Max ==> v as int == contentBox.value as int
  {
    var w: int64 := match contentBox case Some(rect) => rect case None => 0;
    MaskToI32Max(w) as int32
  }

  /**
   * `HTMLImageElement_getWidth`: fails for a null receiver and aborts the
   * task for a node that is not an image element; for an image it reports
   * the masked content box width. `contentBox` is layout's reply to the
   * content box query for the node.
   */
  method GetWidth(receiver: JsObject?, contentBox: Option<int64>) returns (r: NativeOutcome)
    requires receiver != null ==> Live(receiver)
    ensures receiver == null <==> r == CallFailed
    ensures receiver != null && !WrappedNode(receiver).kind.Element? ==> r == TaskFailure(NotAnElement)
    ensures receiver != null && WrappedNode(receiver).kind.Element?
            && WrappedNode(receiver).kind.data.kind != HTMLImageElement
            ==> r == TaskFailure(NotAnImage)
    ensures receiver != null && WrappedNode(receiver).kind.Element?
            && WrappedNode(receiver).kind.data.kind == HTMLImageElement
            ==> r == CallOk(Some(JsInt(ReportedWidth(contentBox))))
  {
    if receiver == null {
      return CallFailed;
    }
    var node := WrappedNode(receiver);
    match node.kind {
      case Element(ed) =>
        if ed.kind == HTMLImageElement {
          r := CallOk(Some(JsInt(ReportedWidth(contentBox))));
        } else {
          r := TaskFailure(NotAnImage);
        }
      case _ =>
        r := TaskFailure(NotAnElement);
    }
  }

  /**
   * `HTMLImageElement_setWidth`: fails for a null receiver and aborts the
   * task for a node that is not an image element, leaving the node as it
   * was; for an image it stores the decimal text of the argument as the
   * element's `width` attribute, and reading that attribute back gives the
   * argument again.
   */
  method SetWidth(receiver: JsObject?, arg: int32) returns (r: NativeOutcome)
    requires receiver != null ==> Live(receiver)
    modifies if receiver != null then {WrappedNode(receiver)} else {}
    ensures receiver == null <==> r == CallFailed
    ensures receiver != null && !old(WrappedNode(receiver).kind).Element? ==>
              r == TaskFailure(NotAnElement) && WrappedNode(receiver).kind == old(WrappedNode(receiver).kind)
    ensures receiver != null && old(WrappedNode(receiver).kind).Element?
            && old(WrappedNode(receiver).kind).data.kind != HTMLImageElement
            ==> r == TaskFailure(NotAnImage) && WrappedNode(receiver).kind == old(WrappedNode(receiver).kind)
    ensures receiver != null && old(WrappedNode(receiver).kind).Element?
            && old(WrappedNode(receiver).kind).data.kind == HTMLImageElement
            ==> (&& r == CallOk(None)
                 && WrappedNode(receiver).kind
                      == Element(SetAttr(old(WrappedNode(receiver).kind).data, "width", IntToString(arg as int)))
                 && ParseInt(WrappedNode(receiver).kind.data.attrs["width"]) == Some(arg as int))
  {
    if receiver == null {
      return CallFailed;
    }
    var node := WrappedNode(receiver);
    match node.kind {
      case Element(ed) =>
        if ed.kind == HTMLImageElement {
          IntRoundTrip(arg as int);
          node.kind := Element(SetAttr(ed, "width", IntToString(arg as int)));
          r := CallOk(None);
        } else {
          r := TaskFailure(NotAnImage);
        }
      case _ =>
        r := TaskFailure(NotAnElement);
    }
  }

  /**
   * A compartment set up by `init` wraps every element unless the engine
   * itself cannot construct the object: `create` succeeds exactly when
   * `allocates` holds, and a script reading `tagName` through the new
   * object's prototype chain reaches the `Element` accessor, while `width`
   * reaches the image accessor exactly when the element is an image.
   */
  method InitThenCreate(c: Compartment, node: Node, scope: NodeScope, allocates: bool)
    returns (r: Result<JsObject, string>)
    requires c.Valid() && InitCanRun(c.protos) && node.kind.Element?
    modifies c
    ensures c.Valid()
    ensures r.Success? <==> allocates
    ensures r.Success? ==> r.value.proto in c.protos && Live(r.value) && WrappedNode(r.value) == node
    ensures r.Success? ==>
              FindProperty(c.protos, Chain(c.protos, c.rank, r.value.proto), "tagName") == Some(TagNameSpec)
    ensures r.Success? && node.kind.data.kind == HTMLImageElement
            ==> FindProperty(c.protos, Chain(c.protos, c.rank, r.value.proto), "width") == Some(WidthSpec)
  {
    ghost var p0, rank0 := c.protos, c.rank;
    Init(c);
    InitHoldsElementPrototypes(p0);
    r := Create(c, node, scope, allocates);
    TagNameResolves(p0, rank0, c.protos, c.rank, SelectPrototype(node.kind).value);
    WidthResolves(p0, rank0, c.protos, c.rank, SelectPrototype(node.kind).value);
  }
}
