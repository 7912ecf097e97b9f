/**
 * The document sink the compilers write into: an append-only tree. Nodes live
 * in one sequence in the order they were added; a node is named by its index,
 * and records its parent's index, its element name, its text (if any) and its
 * attributes in the order they were added. Index 0 is the root, its own parent.
 * Only the two operations the compilers use are modelled: adding a child and
 * adding an attribute to a node already added.
 */
module Document {
  import opened Wrappers
  import opened FieldStore

  datatype Attribute = Attribute(name: string, value: string)

  datatype Node = Node(parent: nat, name: string, text: Option<string>, attrs: seq<Attribute>)

  /**
   * The nodes a `foreach($group as $key => $value) addChild($key, f($value))`
   * loop appends under `parent`, one per pair, in the group's order.
   */
  function Children(fields: seq<Field>, parent: nat, f: string -> string): (r: seq<Node>)
    ensures |r| == |fields|
    decreases |fields|
  {
    if fields == [] then []
    else
      var last := fields[|fields| - 1];
      Children(fields[..|fields| - 1], parent, f) + [Node(parent, last.key, Some(f(last.value)), [])]
  }

  /** The i-th child is the i-th pair, its value passed through `f`. */
  lemma {:induction false} ChildrenAt(fields: seq<Field>, parent: nat, f: string -> string)
    ensures forall i :: 0 <= i < |fields| ==>
              Children(fields, parent, f)[i] == Node(parent, fields[i].key, Some(f(fields[i].value)), [])
    decreases |fields|
  {
    if fields != [] {
      var init := fields[..|fields| - 1];
      ChildrenAt(init, parent, f);
      assert forall i :: 0 <= i < |init| ==> init[i] == fields[i];
    }
  }

  /** Children of a sorted group with distinct keys have strictly ascending names. */
  lemma ChildrenAscending(fields: seq<Field>, parent: nat, f: string -> string)
    requires Sorted(fields) && DistinctKeys(fields)
    ensures var r := Children(fields, parent, f);
              forall i, j :: 0 <= i < j < |r| ==> KeyLe(r[i].name, r[j].name) && r[i].name != r[j].name
  {
    ChildrenAt(fields, parent, f);
  }

  /** Every pair of the group has its child node, with the value passed through `f`. */
  lemma ChildrenMember(fields: seq<Field>, parent: nat, f: string -> string, k: string, v: string)
    requires Field(k, v) in fields
    ensures Node(parent, k, Some(f(v)), []) in Children(fields, parent, f)
  {
    var i :| 0 <= i < |fields| && fields[i] == Field(k, v);
    ChildrenAt(fields, parent, f);
    assert Children(fields, parent, f)[i] == Node(parent, k, Some(f(v)), []);
  }

  class Tree {
    var nodes: seq<Node>

    constructor (rootName: string)
      ensures nodes == [Node(0, rootName, None, [])]
    {
      nodes := [Node(0, rootName, None, [])];
    }

    /** addChild: appends one node under `parent` and returns its index. */
    method AddChild(parent: nat, name: string, text: Option<string>) returns (child: nat)
      requires parent < |nodes|
      modifies this
      ensures nodes == old(nodes) + [Node(parent, name, text, [])]
      ensures child == old(|nodes|)
    {
      child := |nodes|;
      nodes := nodes + [Node(parent, name, text, [])];
    }

    /** addAttribute: appends one attribute to a node already in the tree. */
    method AddAttribute(node: nat, name: string, value: string)
      requires node < |nodes|
      modifies this
      ensures |nodes| == old(|nodes|)
      ensures nodes == old(nodes)[node := old(nodes)[node].(attrs := old(nodes)[node].attrs + [Attribute(name, value)])]
    {
      nodes := nodes[node := nodes[node].(attrs := nodes[node].attrs + [Attribute(name, value)])];
    }
  }
}
