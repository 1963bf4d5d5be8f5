/**
 * The slice of the DOM node store that the element bindings look at: a node's
 * kind, and for an element its tag name, its element kind and its attributes.
 */
module Dom {

  /**
   * Element kinds the bindings tell apart. Every other HTML element kind is
   * treated alike by them and is represented by `OtherElement`.
   */
  datatype ElementKind =
    | HTMLDivElement
    | HTMLHeadElement
    | HTMLImageElement
    | HTMLScriptElement
    | OtherElement

  datatype ElementData = ElementData(tagName: string, kind: ElementKind, attrs: map<string, string>)

  /** A node is an element or one of the non-element kinds, which the bindings do not look into. */
  datatype NodeKind = Element(data: ElementData) | Text | Comment | Doctype

  /**
   * A node of the shared store. Its data is updated in place (a setter writes
   * an attribute), and every bundle that names the node sees the update.
   */
  class Node {
    var kind: NodeKind

    constructor (kind: NodeKind)
      ensures this.kind == kind
    {
      this.kind := kind;
    }
  }

  /** The access scope through which the node's data is read and written. */
  datatype NodeScope = NodeScope(id: nat)

  /** The node handle and its scope, owned by one script object's private slot. */
  datatype Bundle = Bundle(node: Node, scope: NodeScope)

  /**
   * `set_attr`: the attribute `name` now has `value`; an existing attribute of
   * that name is replaced, every other attribute and the tag name and kind
   * stay as they were.
   */
  function SetAttr(ed: ElementData, name: string, value: string): (r: ElementData)
    ensures name in r.attrs && r.attrs[name] == value
    ensures r.attrs.Keys == ed.attrs.Keys + {name}
    ensures forall k :: k in ed.attrs && k != name ==> r.attrs[k] == ed.attrs[k]
    ensures r.tagName == ed.tagName && r.kind == ed.kind
  {
    ed.(attrs := ed.attrs[name := value])
  }
}
