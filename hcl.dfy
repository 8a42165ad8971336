/** An abstract view of the HCL syntax tree the wrapper edits through
    `hclwrite`: a body is an ordered list of items (attributes, nested blocks
    and blank lines); top-level blocks are objects, because the wrapper edits
    the parsed blocks in place and may append one of them to the override body
    more than once; nested blocks are only ever read, so they are values. */
module Hcl {
  import opened Wrappers

  /** An attribute's expression: a string literal, or any other expression
      kept as its source text. */
  datatype Expr = StringLit(value: string) | Raw(text: string)

  datatype Item =
    | Newline
    | Attribute(name: string, expr: Expr)
    | Nested(block: NestedBlock)

  datatype NestedBlock = NestedBlock(typ: string, labels: seq<string>, body: seq<Item>)

  /** `Body.Blocks()`: the nested blocks of a body, in order. */
  function NestedBlocks(items: seq<Item>): seq<NestedBlock>
  {
    if items == [] then []
    else (if items[0].Nested? then [items[0].block] else []) + NestedBlocks(items[1..])
  }

  /** `Body.GetAttribute(name)`: the expression of the first attribute called `name`. */
  function GetAttribute(items: seq<Item>, name: string): (r: Option<Expr>)
    ensures r.Some? ==> Attribute(name, r.value) in items
    ensures r.None? ==> forall i :: 0 <= i < |items| ==> !(items[i].Attribute? && items[i].name == name)
  {
    if items == [] then None
    else if items[0].Attribute? && items[0].name == name then Some(items[0].expr)
    else GetAttribute(items[1..], name)
  }

  /** `Body.SetAttributeValue(name, value)`: overwrite the expression of the
      first attribute called `name` in place, or append a new attribute at the
      end of the body when there is none. */
  function SetAttribute(items: seq<Item>, name: string, e: Expr): seq<Item>
  {
    if items == [] then [Attribute(name, e)]
    else if items[0].Attribute? && items[0].name == name then [Attribute(name, e)] + items[1..]
    else [items[0]] + SetAttribute(items[1..], name, e)
  }

  /** `n` blank lines. */
  function Newlines(n: nat): (r: seq<Item>)
    ensures |r| == n && forall i :: 0 <= i < n ==> r[i] == Newline
  {
    if n == 0 then [] else Newlines(n - 1) + [Newline]
  }

  /** An `hclwrite.Block` together with its body. */
  class Block {
    const typ: string
    const labels: seq<string>
    var items: seq<Item>

    constructor (typ: string, labels: seq<string>, items: seq<Item>)
      ensures this.typ == typ && this.labels == labels && this.items == items
    {
      this.typ := typ;
      this.labels := labels;
      this.items := items;
    }

    /** `Body.AppendNewline()`. */
    method AppendNewline()
      modifies this
      ensures items == old(items) + [Newline]
    {
      items := items + [Newline];
    }

    /** `Body.SetAttributeValue(name, cty.StringVal(value))`. */
    method SetAttributeValue(name: string, value: string)
      modifies this
      ensures items == SetAttribute(old(items), name, StringLit(value))
    {
      items := SetAttribute(items, name, StringLit(value));
    }
  }

  /** A parsed `hclwrite.File`: its top-level blocks in order. */
  datatype File = File(blocks: seq<Block>)

  /** After setting an attribute, reading it gives the new expression. */
  lemma {:induction false} GetSetSame(items: seq<Item>, name: string, e: Expr)
    ensures GetAttribute(SetAttribute(items, name, e), name) == Some(e)
  {
    if items != [] && !(items[0].Attribute? && items[0].name == name) {
      GetSetSame(items[1..], name, e);
    }
  }

  /** Setting one attribute leaves every other attribute as it was. */
  lemma {:induction false} GetSetOther(items: seq<Item>, name: string, e: Expr, other: string)
    requires other != name
    ensures GetAttribute(SetAttribute(items, name, e), other) == GetAttribute(items, other)
  {
    if items != [] && !(items[0].Attribute? && items[0].name == name) {
      GetSetOther(items[1..], name, e, other);
    }
  }

  /** Setting an attribute leaves the nested blocks as they were. */
  lemma {:induction false} SetKeepsNested(items: seq<Item>, name: string, e: Expr)
    ensures NestedBlocks(SetAttribute(items, name, e)) == NestedBlocks(items)
  {
    if items == [] {
    } else if items[0].Attribute? && items[0].name == name {
      assert ([Attribute(name, e)] + items[1..])[1..] == items[1..];
    } else {
      SetKeepsNested(items[1..], name, e);
      assert ([items[0]] + SetAttribute(items[1..], name, e))[1..] == SetAttribute(items[1..], name, e);
    }
  }

  /** Setting an attribute twice keeps only the second value, without adding
      a second attribute. */
  lemma {:induction false} SetSetSame(items: seq<Item>, name: string, e1: Expr, e2: Expr)
    ensures SetAttribute(SetAttribute(items, name, e1), name, e2) == SetAttribute(items, name, e2)
  {
    if items == [] {
    } else if items[0].Attribute? && items[0].name == name {
      assert ([Attribute(name, e1)] + items[1..])[1..] == items[1..];
    } else {
      SetSetSame(items[1..], name, e1, e2);
      assert ([items[0]] + SetAttribute(items[1..], name, e1))[1..] == SetAttribute(items[1..], name, e1);
    }
  }

  /** Attributes and nested blocks of a body followed by blank lines are those of the body. */
  lemma {:induction false} NewlinesKeepStructure(items: seq<Item>, n: nat)
    ensures NestedBlocks(items + Newlines(n)) == NestedBlocks(items)
    ensures forall name :: GetAttribute(items + Newlines(n), name) == GetAttribute(items, name)
    decreases |items|
  {
    if items == [] {
      NewlinesOnly(n);
      assert items + Newlines(n) == Newlines(n);
    } else {
      NewlinesKeepStructure(items[1..], n);
      assert (items + Newlines(n))[1..] == items[1..] + Newlines(n);
    }
  }

  /** A run of blank lines holds neither attributes nor nested blocks. */
  lemma NewlinesOnly(n: nat)
    ensures NestedBlocks(Newlines(n)) == []
    ensures forall name :: GetAttribute(Newlines(n), name) == None
  {
    BlankBody(Newlines(n));
  }

  lemma {:induction false} BlankBody(s: seq<Item>)
    requires forall i :: 0 <= i < |s| ==> s[i] == Newline
    ensures NestedBlocks(s) == []
    ensures forall name :: GetAttribute(s, name) == None
  {
    if s != [] {
      BlankBody(s[1..]);
    }
  }
}
