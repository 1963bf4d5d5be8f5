# Element bindings of the Servo DOM, modelled in Dafny

This project models `src/servo/dom/bindings/element.rs`, the glue that exposes
DOM element nodes to the SpiderMonkey script engine. It covers four parts of
that file.

- **`init`.** It registers the element interfaces as empty prototypes in a
  compartment, each under its parent:
  - `Element` under `Node`;
  - `HTMLElement` under `Element`;
  - `HTMLDivElement`, `HTMLScriptElement`, `HTMLHeadElement` and
    `HTMLImageElement` under `HTMLElement`.

  `init` also attaches the native accessors: `tagName` on `Element`, read-only;
  `width` on `HTMLImageElement`, read-write. It keeps both descriptor arrays
  alive in the compartment and registers the instance class
  `GenericElementInstance` with the element `finalize` hook.
- **`create`.** It picks the prototype for a node from the node's element kind,
  allocates an instance of that class, and hands the node and its access scope
  (the node bundle) to the object's reserved slot 0.
- **`finalize`.** It reads the bundle back out of slot 0 and takes its ownership
  back, so the bundle is released.
- **The accessors.** These are `getTagName`, `HTMLImageElement_getWidth` and
  `HTMLImageElement_setWidth`:
  - each one fails the native call when it has no receiver object;
  - the getter returns the tag name, or null for a node that is not an element;
  - the width accessors abort the task on a node that is not an image element;
  - the width getter masks layout's content-box width with `i32::max_value`;
  - the width setter writes the decimal text of its integer argument into the
    `width` attribute.

The model has six modules:

- `Wrappers` holds `Option` and `Result`.
- `Numeric` holds the machine integers and the bitwise AND behind the width mask.
- `Decimal` holds `int::str` and the parse that reads such text back.
- `Dom` holds the node data the bindings look at.
- `Engine` holds three things:
  - the compartment, a class whose prototype registry, class table and kept
    descriptor arrays change in place;
  - prototype chains and property lookup;
  - script objects with their slot 0.
- `ElementBindings` holds the operations of `element.rs` and the properties
  proved about them.

Four points of the code's behaviour are easy to misread:

- **Width is masked, not clamped.** `width & (i32::max_value as int)` keeps the
  low 31 bits of the 64-bit width, so the getter reports the width modulo
  2^31. A width of 2^31 reads as 0, and a negative width reads as a large
  positive one. `Numeric.MaskWrapsAboveRange` states this.
- **A kind mismatch aborts the task.** When a width accessor meets a node that
  is not an image element, the Rust `fail` aborts the task. It is modelled as
  the outcome `TaskFailure` with the source's message, not as a recoverable
  error.
- **Failed allocation aborts the task.** `create` unwraps the result of
  `new_object_with_proto`. That call fails when the class or the prototype is
  not registered, or when the engine cannot allocate the object. Whether the
  engine allocates is the parameter `allocates`, so the model admits that
  failure even on a compartment set up by `init`. A failure is a task failure;
  the model returns it as `Failure`.
- **Every accessor takes the write scope.** This includes the getters.

Prototype chains are ranked by a ghost number, in the order the prototypes were
defined. Every parent has a smaller number than its children. This ranking is
what makes a chain finite and free of cycles.

## Model

| member | source | states |
|---|---|---|
| `Engine.Compartment.DefineEmptyPrototype` | src/servo/dom/bindings/element.rs:48-53 | defines exactly one new empty prototype under an already registered parent; the registry stays well ordered (parent numbered before child), and classes and kept arrays are unchanged |
| `Engine.Compartment.DefineProperties` | src/servo/dom/bindings/element.rs:41-43 | appends the descriptors to that one prototype's properties and leaves its parent, every other prototype and the ordering as they were |
| `Engine.Compartment.PushGlobalProps` | src/servo/dom/bindings/element.rs:40 | appends the descriptor array to the compartment's kept arrays and changes nothing else |
| `Engine.Compartment.RegisterClass` | src/servo/dom/bindings/element.rs:45-46 | maps the class name to its finalize hook and changes nothing else |
| `Engine.Compartment.NewObjectWithProto` | src/servo/dom/bindings/element.rs:172-174 | succeeds exactly when the class and the prototype are registered and the engine allocates; the new object is fresh, of that class and prototype, with an empty slot 0 that owns no bundle |
| `Engine.Compartment.constructor` | src/servo/dom/bindings/element.rs:32 | a new compartment is well ordered and holds no prototype, class or kept descriptor array |
| `Engine.JsObject.constructor` | src/servo/dom/bindings/element.rs:172-174 | a new object's slot 0 is empty and it owns no bundle |
| `Engine.Chain` | src/servo/dom/bindings/element.rs:33-53 | the chain of a prototype starts at it, stays inside the registry, follows parent links step by step and ends at a prototype without a parent |
| `Engine.ChainDefinedBefore` | src/servo/dom/bindings/element.rs:48-53 | every prototype on a chain was defined no later than the chain's start |
| `Engine.ChainAcyclic` | src/servo/dom/bindings/element.rs:48-53 | no prototype occurs twice on a chain (no cycle) |
| `Engine.ChainUnchangedByLaterDefinitions` | src/servo/dom/bindings/element.rs:33 | defining more prototypes never changes the chain of one defined earlier (the chain of `Node` survives `init`) |
| `Engine.FindSpec` | src/servo/dom/bindings/element.rs:34-39 | finds a descriptor of the given name among a prototype's properties, and reports none exactly when none has that name |
| `Engine.FindProperty` | src/servo/dom/bindings/element.rs:41-43 | a property lookup along a chain yields a descriptor of that name held by some prototype on the chain, and yields none exactly when no prototype on it has one |
| `ElementBindings.DefineWithProperties` | src/servo/dom/bindings/element.rs:33-43 | defines the prototype, keeps the descriptor array and attaches it: the prototype ends up with exactly those properties, and the array is appended to the kept ones |
| `ElementBindings.Init` | src/servo/dom/bindings/element.rs:32-64 | adds exactly the six element prototypes with their parents and properties, in definition order after everything already there; keeps the two descriptor arrays; registers `GenericElementInstance` with the finalize hook; the registry stays well ordered |
| `ElementBindings.InitRegistryWellOrdered` | src/servo/dom/bindings/element.rs:33-53 | numbering the prototypes in `init`'s definition order puts every parent before its children |
| `ElementBindings.InitHoldsElementPrototypes` | src/servo/dom/bindings/element.rs:33-63 | after `init` every earlier prototype is unchanged, and the six element prototypes have the parents and properties `init` gives them |
| `ElementBindings.AccessorPlacement` | src/servo/dom/bindings/element.rs:34-59 | among the element interfaces only `Element` carries `tagName` and only `HTMLImageElement` carries `width`; `tagName` has a getter and no setter, `width` has both, and both are enumerable, shared and native accessors |
| `ElementBindings.SelectPrototype` | src/servo/dom/bindings/element.rs:154-167 | a prototype is chosen exactly for element nodes; non-elements fail with "element::create only handles elements"; the choice is one of the element interfaces other than `Element`, and it is `HTMLElement` exactly for element kinds without a specific interface |
| `ElementBindings.SelectPrototypeInjective` | src/servo/dom/bindings/element.rs:157-163 | two elements given the same prototype are of the same element kind |
| `ElementBindings.ElementChain` | src/servo/dom/bindings/element.rs:33 | after `init`, the chain of `Element` is `Element` followed by the chain `Node` had before |
| `ElementBindings.HTMLElementChain` | src/servo/dom/bindings/element.rs:33-48 | after `init`, the chain of `HTMLElement` is `HTMLElement`, `Element`, then the chain `Node` had before |
| `ElementBindings.InterfaceChain` | src/servo/dom/bindings/element.rs:48-53 | after `init`, every interface `create` can choose is registered, and its chain runs through `HTMLElement` and `Element` into the earlier chain of `Node`, without a cycle |
| `ElementBindings.SelectedPrototypeChain` | src/servo/dom/bindings/element.rs:154-174 | after `init`, the prototype `create` chooses for any element is registered, and its chain reaches `HTMLElement`, `Element` and `Node` without a cycle |
| `ElementBindings.UpperPathLookups` | src/servo/dom/bindings/element.rs:34-48 | along `HTMLElement` then `Element`, `tagName` is found on `Element` and `width` is not found |
| `ElementBindings.SpecificInterfaceProps` | src/servo/dom/bindings/element.rs:49-63 | the four specific interfaces hang directly off `HTMLElement`, none has `tagName`, and only `HTMLImageElement` has `width` |
| `ElementBindings.TagNameResolves` | src/servo/dom/bindings/element.rs:34-43 | after `init`, reading `tagName` through the prototype chain of any object `create` makes finds the `Element` accessor |
| `ElementBindings.WidthResolves` | src/servo/dom/bindings/element.rs:53-63 | after `init`, `width` resolves to the image accessor exactly on the `HTMLImageElement` chain; elsewhere it resolves to whatever the chain of `Node` offers |
| `ElementBindings.Create` | src/servo/dom/bindings/element.rs:153-182 | a non-element fails before anything is allocated; an element is wrapped exactly when the class and the chosen prototype are registered and the engine allocates, and the fresh object has the chosen prototype and holds the bundle of node and scope in slot 0, owning it |
| `ElementBindings.Finalize` | src/servo/dom/bindings/element.rs:24-30 | returns exactly the bundle slot 0 holds, and ownership passes from the object to the hook |
| `ElementBindings.CreateThenFinalize` | src/servo/dom/bindings/element.rs:176-180 | finalizing an object `create` made gives back exactly the node and scope it was created with (one install paired with one reclaim), and fails exactly when `create` does |
| `ElementBindings.InitThenCreate` | src/servo/dom/bindings/element.rs:171-174 | on a compartment set up by `init`, `create` succeeds for an element exactly when the engine allocates; the object it makes holds the node, and its chain resolves `tagName` to the `Element` accessor, and resolves `width` to the image accessor for images |
| `ElementBindings.WrappedNode` | src/servo/dom/bindings/element.rs:74-76 | the node reached through a live object's slot 0 is the node of the bundle it owns |
| `ElementBindings.GetTagName` | src/servo/dom/bindings/element.rs:127-150 | the call fails exactly when there is no receiver; otherwise it succeeds with the element's tag name, or with null for a node that is not an element |
| `ElementBindings.ReportedWidth` | src/servo/dom/bindings/element.rs:83-96 | the reported width is 0 without a content box and the box width modulo 2^31 with one; it always lies in [0, 2^31 - 1], and a width already in that range is reported unchanged |
| `ElementBindings.GetWidth` | src/servo/dom/bindings/element.rs:67-98 | the call fails exactly when there is no receiver; it aborts with "why is this not an element?" or "why is this not an image element?" on the wrong kind of node; on an image it reports the masked width |
| `ElementBindings.SetWidth` | src/servo/dom/bindings/element.rs:101-124 | the call fails exactly when there is no receiver; it aborts on the wrong kind of node and leaves the node untouched; on an image it sets `width` to the argument's decimal text, leaves every other attribute alone, and that text parses back to the argument |
| `Numeric.MaskToI32Max` | src/servo/dom/bindings/element.rs:95-96 | `w & i32::max_value` on a 64-bit two's complement width is `w` modulo 2^31, within [0, 2^31 - 1], and the identity on that range |
| `Numeric.MaskIsResidue` | src/servo/dom/bindings/element.rs:96 | `w & i32::max_value` on the 64-bit pattern of `w` equals `w` modulo 2^31, for negative `w` too |
| `Numeric.BitAndLowMask` | src/servo/dom/bindings/element.rs:96 | ANDing with 2^k - 1 keeps the value modulo 2^k |
| `Numeric.MaskWrapsAboveRange` | src/servo/dom/bindings/element.rs:96 | widths from 2^31 up to 2^32 wrap to `w - 2^31` instead of saturating; 2^31 reads as 0 |
| `Numeric.TwosComplement` | src/servo/dom/bindings/element.rs:96 | the unsigned reading of a 64-bit two's complement value is the value modulo 2^64 |
| `Numeric.Pow2Of31` | src/servo/dom/bindings/element.rs:96 | `i32::max_value` + 1 is 2^31 |
| `Decimal.NatToString` | src/servo/dom/bindings/element.rs:115 | the text of a natural number is non-empty, all digits, and has no leading zero |
| `Decimal.IntToString` | src/servo/dom/bindings/element.rs:115 | `int::str` yields a non-empty text that starts with '-' exactly for negative numbers |
| `Decimal.ParseInt` | src/servo/dom/bindings/element.rs:115 | a parsed value comes from non-empty text, and a negative value from text starting with '-' |
| `Decimal.NatRoundTrip` | src/servo/dom/bindings/element.rs:115 | reading back the digits of a natural number gives the number |
| `Decimal.IntRoundTrip` | src/servo/dom/bindings/element.rs:115 | parsing `int::str(i)` gives back `i` |
| `Decimal.IntToStringInjective` | src/servo/dom/bindings/element.rs:115 | different integers are stored as different texts |
| `Dom.Node.constructor` | src/servo/dom/bindings/element.rs:153 | a new node has the kind it is given |
| `Dom.SetAttr` | src/servo/dom/bindings/element.rs:115 | `set_attr` gives the attribute its new value, keeps every other attribute, adds no other key, and leaves the tag name and kind alone |

## Left out

- Engine calls: `JS_THIS_OBJECT`, `JS_ARGV`, `RUST_JSVAL_TO_INT`,
  `RUST_INT_TO_JSVAL`, `domstring_to_jsval`, `JS_GetReservedSlot` and
  `JS_SetReservedSlot` are foreign calls. The model replaces them as follows:
  - the receiver is a `JsObject?`, and `null` means the engine supplied none;
  - the setter's argument arrives as a 32-bit integer, so a non-integer script
    value reinterpreted by `RUST_JSVAL_TO_INT` is not modelled;
  - results are a `NativeOutcome`;
  - slot 0 is a field of the object.
- Pointer casts: `reinterpret_cast` and the raw private pointer are not
  modelled. Neither is the freeing of the bundle in `finalize`. Ownership of
  the bundle is ghost state: nobody, the object, or the finalize hook after
  reclaim.
- Locking: `scope.write(...)` is not modelled. Each closure runs as plain
  sequential code on the node, and no concurrent layout task is modelled.
- Layout query: `query_layout(ContentBox(node))` is a blocking round trip to
  the layout task. Its reply is the parameter `contentBox` of `GetWidth`
  (`None` for `Err(())`).
- `utils` helpers: the bodies of `define_empty_prototype`, `instance_jsclass`,
  `get_compartment`, `squirrel_away_unique` and `str`, and `add_name` (name
  interning), are not part of this model. They become the following:
  - a registry insert;
  - a class-table entry;
  - an explicit compartment parameter;
  - a slot write;
  - string copies.
- Node bindings: `dom/bindings/node.rs` (`unwrap`, `NodeBundle`) and
  `dom/element.rs` (`set_attr`, the element kinds) are not part of this model.
  The model uses three stand-ins:
  - `unwrap` reads slot 0;
  - `set_attr` is an update of the attribute map;
  - element kinds other than the four the bindings tell apart are one
    `OtherElement`.
- `Engine.Compartment.DefineEmptyPrototype`: it requires an unused name and a
  registered parent, because the body of `define_empty_prototype` is not
  shown. For the same reason `ElementBindings.Init` requires that `Node` is
  already defined (the node bindings are initialized first) and that none of
  the element names is taken (it runs once per compartment). What
  `define_empty_prototype` does when these fail is not modelled.
- `Engine.Compartment.DefineProperties`: it requires every descriptor name to
  be new on that prototype, which holds at both of `init`'s calls (each goes
  to a freshly defined empty prototype). What `JS_DefineProperties` does when
  a name is defined twice is not modelled.
- `ElementBindings.GetTagName`, `ElementBindings.GetWidth`,
  `ElementBindings.SetWidth`: they require a receiver that is either null or
  live, meaning made by `create` and not yet finalized, so that it holds its
  bundle. On any other object the source's `unwrap` (element.rs:74, 108, 135)
  reads a slot 0 that holds no bundle, which is undefined behaviour. That
  includes the prototype objects that `init` puts the accessors on
  (element.rs:42, 62), since they hold no bundle either. The model promises
  nothing for such receivers.
- Allocation: whether the engine manages to allocate a new object is not
  decided in this repository. It is the parameter `allocates` of
  `Engine.Compartment.NewObjectWithProto` and `ElementBindings.Create`.
- `ElementBindings.Finalize`: it requires an object that holds its bundle. The
  engine finalizes each instance once, after `create` filled it. The source
  reads slot 0 without checking.
- Property lookup: how the engine resolves a property access along the
  prototype chain (`Engine.FindProperty`) is a model of the engine's lookup,
  not of code in this repository. A descriptor's `tinyid` is carried along but
  not interpreted, and its `info` pointers are not modelled.
- New objects: the parent object `compartment.global_obj` is not modelled.
- Logging: the `debug!` call in `finalize` is left out.
