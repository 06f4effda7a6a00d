/**
  Blocks of `data_template.rs`: a flat list of text and parsed actions becomes a tree
  of text, actions, if / else-if / else chains and ranges, nested to any depth.
 */
module TemplateBlock {
  import opened Common
  import opened TemplatePipeline
  import opened TemplateAction

  /** A raw item after its tokens were parsed; `Broken` when they do not form an action. */
  datatype Item = Text(text: string) | Act(action: Action) | Broken

  /** An else block, if any. */
  datatype Otherwise = NoElse | ElseBlock(nodes: seq<Node>)

  datatype Branch = Branch(cond: Pipeline, body: seq<Node>)

  datatype Node =
    | TextNode(text: string)
    | ActionNode(assign: seq<string>, pipeline: Pipeline)
    | IfNode(branches: seq<Branch>, otherwise: Otherwise)
    | RangeNode(vars: RangeVars, over: Pipeline, body: seq<Node>, otherwise: Otherwise)

  /** Items that end a nested block without being part of it. */
  predicate Stops(item: Item) {
    item.Act? && (item.action.End? || item.action.Else? || item.action.ElseIf?)
  }

  // ----- Parsing (data_template.rs:658-820) -----

  /** What follows the first branch of an if: more branches, an optional else, and the end. */
  datatype Chain = Chain(branches: seq<Branch>, otherwise: Otherwise)

  function ParseBlock(items: seq<Item>, nested: bool): (r: Parsed<seq<Node>>)
    ensures r.Done? ==> r.size <= |items| && (nested ==> r.size < |items|)
    decreases |items|, 1
  {
    if items == [] then (if nested then Fail else Done([], 0))
    else if Stops(items[0]) then (if nested then Done([], 0) else Fail)
    else
      var first := ParseNode(items);
      if first.Fail? then Fail
      else
        var more := ParseBlock(items[first.size..], nested);
        if more.Fail? then Fail else Done([first.value] + more.value, first.size + more.size)
  }

  function ParseNode(items: seq<Item>): (r: Parsed<Node>)
    requires items != [] && !Stops(items[0])
    ensures r.Done? ==> 1 <= r.size <= |items|
    decreases |items|, 0
  {
    match items[0]
    case Text(s) => Done(TextNode(s), 1)
    case Broken => Fail
    case Act(Run(vars, p)) => Done(ActionNode(vars, p), 1)
    case Act(If(c)) =>
      var body := ParseBlock(items[1..], true);
      if body.Fail? then Fail
      else
        var chain := ParseChain(items[1..][body.size..]);
        if chain.Fail? then Fail
        else Done(IfNode([Branch(c, body.value)] + chain.value.branches, chain.value.otherwise),
                  1 + body.size + chain.size)
    case Act(Range(vars, p)) =>
      var body := ParseBlock(items[1..], true);
      if body.Fail? then Fail
      else
        var last := ParseOtherwise(items[1..][body.size..]);
        if last.Fail? then Fail
        else Done(RangeNode(vars, p, body.value, last.value), 1 + body.size + last.size)
  }

  /** The loop after the first branch. */
  function ParseChain(items: seq<Item>): (r: Parsed<Chain>)
    ensures r.Done? ==> 1 <= r.size <= |items|
    decreases |items|, 1
  {
    if items != [] && items[0].Act? && items[0].action.ElseIf? then
      var body := ParseBlock(items[1..], true);
      if body.Fail? then Fail
      else
        var more := ParseChain(items[1..][body.size..]);
        if more.Fail? then Fail
        else Done(Chain([Branch(items[0].action.cond, body.value)] + more.value.branches, more.value.otherwise),
                  1 + body.size + more.size)
    else
      var last := ParseOtherwise(items);
      if last.Fail? then Fail else Done(Chain([], last.value), last.size)
  }

  /** An optional else block, then the end. */
  function ParseOtherwise(items: seq<Item>): (r: Parsed<Otherwise>)
    ensures r.Done? ==> 1 <= r.size <= |items|
    decreases |items|, 0
  {
    if items == [] then Fail
    else if items[0] == Act(End) then Done(NoElse, 1)
    else if items[0] == Act(Else) then
      var body := ParseBlock(items[1..], true);
      if body.Fail? then Fail
      else if items[1..][body.size] == Act(End) then Done(ElseBlock(body.value), body.size + 2)
      else Fail
    else Fail
  }

  /** `parse_template` after scanning: the whole list at top level. */
  function ParseTemplate(items: seq<Item>): Option<seq<Node>> {
    match ParseBlock(items, false)
    case Fail => None
    case Done(nodes, n) => Some(nodes)
  }

  // ----- Flattening -----

  function Flatten(nodes: seq<Node>): seq<Item>
    decreases nodes, 1
  {
    if nodes == [] then [] else FlattenNode(nodes[0]) + Flatten(nodes[1..])
  }

  function FlattenNode(node: Node): seq<Item>
    decreases node, 0
  {
    match node
    case TextNode(s) => [Text(s)]
    case ActionNode(vars, p) => [Act(Run(vars, p))]
    case IfNode(bs, o) =>
      if bs == [] then []
      else [Act(If(bs[0].cond))] + (Flatten(bs[0].body) + (FlattenBranches(bs[1..]) + FlattenOtherwise(o)))
    case RangeNode(vars, p, body, o) => [Act(Range(vars, p))] + (Flatten(body) + FlattenOtherwise(o))
  }

  function FlattenBranches(bs: seq<Branch>): seq<Item>
    decreases bs, 2
  {
    if bs == [] then []
    else [Act(ElseIf(bs[0].cond))] + (Flatten(bs[0].body) + FlattenBranches(bs[1..]))
  }

  function FlattenOtherwise(o: Otherwise): seq<Item>
    decreases o, 2
  {
    match o
    case NoElse => [Act(End)]
    case ElseBlock(body) => [Act(Else)] + (Flatten(body) + [Act(End)])
  }

  /** Every if has a first branch, at every depth. */
  predicate GoodNodes(nodes: seq<Node>)
    decreases nodes, 1
  {
    nodes == [] || (GoodNode(nodes[0]) && GoodNodes(nodes[1..]))
  }

  predicate GoodNode(node: Node)
    decreases node, 0
  {
    match node
    case TextNode(_) => true
    case ActionNode(_, _) => true
    case IfNode(bs, o) => bs != [] && GoodBranches(bs) && GoodOtherwise(o)
    case RangeNode(_, _, body, o) => GoodNodes(body) && GoodOtherwise(o)
  }

  predicate GoodBranches(bs: seq<Branch>)
    decreases bs, 2
  {
    bs == [] || (GoodNodes(bs[0].body) && GoodBranches(bs[1..]))
  }

  predicate GoodOtherwise(o: Otherwise)
    decreases o, 2
  {
    o.ElseBlock? ==> GoodNodes(o.nodes)
  }

  // ----- Flattened trees parse back -----

  /** What may follow a block: a stopping item if nested, nothing at top level. */
  predicate Follows(rest: seq<Item>, nested: bool) {
    if nested then rest != [] && Stops(rest[0]) else rest == []
  }

  lemma {:induction false} BlockStep(items: seq<Item>, nested: bool, node: Node, n: nat, more: seq<Node>, m: nat)
    requires items != [] && !Stops(items[0]) && ParseNode(items) == Done(node, n)
    requires ParseBlock(items[n..], nested) == Done(more, m)
    ensures ParseBlock(items, nested) == Done([node] + more, n + m)
  {
  }

  lemma {:induction false} NodeStart(node: Node)
    requires GoodNode(node)
    ensures FlattenNode(node) != [] && !Stops(FlattenNode(node)[0])
  {
  }

  lemma {:induction false} BlockRoundTrip(nodes: seq<Node>, rest: seq<Item>, nested: bool)
    requires GoodNodes(nodes) && Follows(rest, nested)
    ensures ParseBlock(Flatten(nodes) + rest, nested) == Done(nodes, |Flatten(nodes)|)
    decreases nodes, 1
  {
    if nodes == [] {
      assert Flatten(nodes) + rest == rest;
    } else {
      var first, more := FlattenNode(nodes[0]), Flatten(nodes[1..]);
      ConcatAssociates(first, more, rest);
      NodeStart(nodes[0]);
      NodeRoundTrip(nodes[0], more + rest);
      ConcatSplits(first, more + rest);
      BlockRoundTrip(nodes[1..], rest, nested);
      BlockStep(first + (more + rest), nested, nodes[0], |first|, nodes[1..], |more|);
      HeadAndTail(nodes);
    }
  }

  lemma {:induction false} IfStep(c: Pipeline, items: seq<Item>, body: seq<Node>, n: nat, chain: Chain, m: nat)
    requires ParseBlock(items, true) == Done(body, n) && ParseChain(items[n..]) == Done(chain, m)
    ensures ParseNode([Act(If(c))] + items)
            == Done(IfNode([Branch(c, body)] + chain.branches, chain.otherwise), 1 + n + m)
  {
    ConcatSplits([Act(If(c))], items);
  }

  lemma {:induction false} RangeStep(vars: RangeVars, p: Pipeline, items: seq<Item>, body: seq<Node>, n: nat,
                                     o: Otherwise, m: nat)
    requires ParseBlock(items, true) == Done(body, n) && ParseOtherwise(items[n..]) == Done(o, m)
    ensures ParseNode([Act(Range(vars, p))] + items) == Done(RangeNode(vars, p, body, o), 1 + n + m)
  {
    ConcatSplits([Act(Range(vars, p))], items);
  }

  lemma {:induction false} ElseIfStep(c: Pipeline, items: seq<Item>, body: seq<Node>, n: nat, chain: Chain, m: nat)
    requires ParseBlock(items, true) == Done(body, n) && ParseChain(items[n..]) == Done(chain, m)
    ensures ParseChain([Act(ElseIf(c))] + items)
            == Done(Chain([Branch(c, body)] + chain.branches, chain.otherwise), 1 + n + m)
  {
    ConcatSplits([Act(ElseIf(c))], items);
  }

  lemma {:induction false} NodeRoundTrip(node: Node, rest: seq<Item>)
    requires GoodNode(node)
    ensures FlattenNode(node) != [] && !Stops(FlattenNode(node)[0])
    ensures ParseNode(FlattenNode(node) + rest) == Done(node, |FlattenNode(node)|)
    decreases node, 0
  {
    match node
    case TextNode(_) =>
    case ActionNode(_, _) =>
    case IfNode(bs, o) =>
      var tail := FlattenBranches(bs[1..]) + FlattenOtherwise(o);
      ChainStart(bs[1..], o);
      BlockRoundTrip(bs[0].body, tail + rest, true);
      OtherwiseRoundTrip(o, rest);
      ChainRoundTrip(bs[1..], o, rest);
      IfRoundTrip(bs, o, tail, rest);
    case RangeNode(vars, p, b, o) =>
      BlockRoundTrip(b, FlattenOtherwise(o) + rest, true);
      OtherwiseRoundTrip(o, rest);
      RangeRoundTrip(vars, p, b, o, rest);
  }

  lemma {:induction false} IfRoundTrip(bs: seq<Branch>, o: Otherwise, tail: seq<Item>, rest: seq<Item>)
    requires bs != [] && tail == FlattenBranches(bs[1..]) + FlattenOtherwise(o)
    requires ParseBlock(Flatten(bs[0].body) + (tail + rest), true) == Done(bs[0].body, |Flatten(bs[0].body)|)
    requires ParseChain(tail + rest) == Done(Chain(bs[1..], o), |tail|)
    ensures var items := FlattenNode(IfNode(bs, o));
            items != [] && !Stops(items[0]) && ParseNode(items + rest) == Done(IfNode(bs, o), |items|)
  {
    var body := Flatten(bs[0].body);
    ConcatSplits(body, tail + rest);
    IfStep(bs[0].cond, body + (tail + rest), bs[0].body, |body|, Chain(bs[1..], o), |tail|);
    Regroup([Act(If(bs[0].cond))], body, tail, rest);
    HeadAndTail(bs);
  }

  lemma {:induction false} RangeRoundTrip(vars: RangeVars, p: Pipeline, b: seq<Node>, o: Otherwise, rest: seq<Item>)
    requires ParseBlock(Flatten(b) + (FlattenOtherwise(o) + rest), true) == Done(b, |Flatten(b)|)
    requires ParseOtherwise(FlattenOtherwise(o) + rest) == Done(o, |FlattenOtherwise(o)|)
    ensures var items := FlattenNode(RangeNode(vars, p, b, o));
            items != [] && !Stops(items[0]) && ParseNode(items + rest) == Done(RangeNode(vars, p, b, o), |items|)
  {
    var body, tail := Flatten(b), FlattenOtherwise(o);
    ConcatSplits(body, tail + rest);
    RangeStep(vars, p, body + (tail + rest), b, |body|, o, |tail|);
    Regroup([Act(Range(vars, p))], body, tail, rest);
  }

  lemma {:induction false} Regroup(a: seq<Item>, b: seq<Item>, c: seq<Item>, d: seq<Item>)
    ensures (a + (b + c)) + d == a + (b + (c + d))
  {
    ConcatAssociates(a, b + c, d);
    ConcatAssociates(b, c, d);
  }

  lemma {:induction false} ChainStart(bs: seq<Branch>, o: Otherwise)
    ensures var tail := FlattenBranches(bs) + FlattenOtherwise(o);
            tail != [] && Stops(tail[0])
  {
  }

  lemma {:induction false} ChainRoundTrip(bs: seq<Branch>, o: Otherwise, rest: seq<Item>)
    requires GoodBranches(bs)
    requires ParseOtherwise(FlattenOtherwise(o) + rest) == Done(o, |FlattenOtherwise(o)|)
    ensures var tail := FlattenBranches(bs) + FlattenOtherwise(o);
            ParseChain(tail + rest) == Done(Chain(bs, o), |tail|)
    decreases bs, 2
  {
    if bs == [] {
      assert FlattenBranches(bs) + FlattenOtherwise(o) == FlattenOtherwise(o);
    } else {
      var body, more := Flatten(bs[0].body), FlattenBranches(bs[1..]) + FlattenOtherwise(o);
      ChainStart(bs[1..], o);
      BlockRoundTrip(bs[0].body, more + rest, true);
      ChainRoundTrip(bs[1..], o, rest);
      ConcatSplits(body, more + rest);
      ElseIfStep(bs[0].cond, body + (more + rest), bs[0].body, |body|, Chain(bs[1..], o), |more|);
      ChainLayout(bs, o, rest);
      HeadAndTail(bs);
    }
  }

  lemma {:induction false} ChainLayout(bs: seq<Branch>, o: Otherwise, rest: seq<Item>)
    requires bs != []
    ensures var body, more := Flatten(bs[0].body), FlattenBranches(bs[1..]) + FlattenOtherwise(o);
            var tail := FlattenBranches(bs) + FlattenOtherwise(o);
            tail + rest == [Act(ElseIf(bs[0].cond))] + (body + (more + rest)) && |tail| == 1 + |body| + |more|
  {
    var head, body := [Act(ElseIf(bs[0].cond))], Flatten(bs[0].body);
    Regroup(head, body, FlattenBranches(bs[1..]), FlattenOtherwise(o));
    Regroup(head, body, FlattenBranches(bs[1..]) + FlattenOtherwise(o), rest);
  }

  lemma {:induction false} OtherwiseRoundTrip(o: Otherwise, rest: seq<Item>)
    requires GoodOtherwise(o)
    ensures ParseOtherwise(FlattenOtherwise(o) + rest) == Done(o, |FlattenOtherwise(o)|)
    decreases o, 2
  {
    if o.ElseBlock? {
      var body, last := Flatten(o.nodes), [Act(End)] + rest;
      BlockRoundTrip(o.nodes, last, true);
      Regroup([Act(Else)], body, [Act(End)], rest);
      ConcatSplits([Act(Else)], body + last);
    }
  }

  // ----- What parses is the flattening of what it parses to -----

  lemma {:induction false} BlockIsFlattened(items: seq<Item>, nested: bool)
    requires ParseBlock(items, nested).Done?
    ensures var r := ParseBlock(items, nested);
            && GoodNodes(r.value) && Flatten(r.value) == items[..r.size] && Follows(items[r.size..], nested)
    decreases |items|, 1
  {
    if items != [] && !Stops(items[0]) {
      var first := ParseNode(items);
      var more := ParseBlock(items[first.size..], nested);
      NodeIsFlattened(items);
      BlockIsFlattened(items[first.size..], nested);
      SlicesJoin(items, first.size, more.size);
    }
  }

  lemma {:induction false} SlicesJoin(items: seq<Item>, n: nat, m: nat)
    requires n + m <= |items|
    ensures items[..n] + items[n..][..m] == items[..n + m]
    ensures items[n..][m..] == items[n + m..]
  {
  }

  /** An item, a block and what follows it, put together again. */
  lemma {:induction false} ThreeSlicesJoin(items: seq<Item>, n: nat, m: nat)
    requires items != [] && 1 + n + m <= |items|
    ensures [items[0]] + (items[1..][..n] + items[1..][n..][..m]) == items[..1 + n + m]
  {
    SlicesJoin(items[1..], n, m);
    SlicesJoin(items, 1, n + m);
  }

  lemma {:induction false} NodeIsFlattened(items: seq<Item>)
    requires items != [] && !Stops(items[0]) && ParseNode(items).Done?
    ensures var r := ParseNode(items);
            GoodNode(r.value) && FlattenNode(r.value) == items[..r.size]
    decreases |items|, 0
  {
    match items[0]
    case Text(_) =>
    case Act(Run(_, _)) =>
    case Act(If(_)) =>
      var body := ParseBlock(items[1..], true);
      BlockIsFlattened(items[1..], true);
      ChainIsFlattened(items[1..][body.size..]);
      IfIsFlattened(items);
    case Act(Range(_, _)) =>
      var body := ParseBlock(items[1..], true);
      BlockIsFlattened(items[1..], true);
      OtherwiseIsFlattened(items[1..][body.size..]);
      ThreeSlicesJoin(items, body.size, ParseOtherwise(items[1..][body.size..]).size);
  }

  lemma {:induction false} IfIsFlattened(items: seq<Item>)
    requires items != [] && items[0].Act? && items[0].action.If? && ParseNode(items).Done?
    requires var body := ParseBlock(items[1..], true);
             var chain := ParseChain(items[1..][body.size..]);
             && GoodNodes(body.value) && Flatten(body.value) == items[1..][..body.size]
             && GoodBranches(chain.value.branches) && GoodOtherwise(chain.value.otherwise)
             && FlattenBranches(chain.value.branches) + FlattenOtherwise(chain.value.otherwise)
                == items[1..][body.size..][..chain.size]
    ensures var r := ParseNode(items);
            GoodNode(r.value) && FlattenNode(r.value) == items[..r.size]
  {
    var body := ParseBlock(items[1..], true);
    var chain := ParseChain(items[1..][body.size..]);
    ConcatSplits([Branch(items[0].action.cond, body.value)], chain.value.branches);
    ThreeSlicesJoin(items, body.size, chain.size);
  }

  lemma {:induction false} ChainIsFlattened(items: seq<Item>)
    requires ParseChain(items).Done?
    ensures var r := ParseChain(items);
            && GoodBranches(r.value.branches) && GoodOtherwise(r.value.otherwise)
            && FlattenBranches(r.value.branches) + FlattenOtherwise(r.value.otherwise) == items[..r.size]
    decreases |items|, 1
  {
    if items != [] && items[0].Act? && items[0].action.ElseIf? {
      var body := ParseBlock(items[1..], true);
      var more := ParseChain(items[1..][body.size..]);
      BlockIsFlattened(items[1..], true);
      ChainIsFlattened(items[1..][body.size..]);
      ThreeSlicesJoin(items, body.size, more.size);
      FlattenLongerChain(items[0].action.cond, body.value, more.value.branches, more.value.otherwise);
    } else {
      OtherwiseIsFlattened(items);
      assert FlattenBranches([]) + FlattenOtherwise(ParseOtherwise(items).value)
             == FlattenOtherwise(ParseOtherwise(items).value);
    }
  }

  lemma {:induction false} FlattenLongerChain(c: Pipeline, body: seq<Node>, bs: seq<Branch>, o: Otherwise)
    requires GoodNodes(body) && GoodBranches(bs)
    ensures GoodBranches([Branch(c, body)] + bs)
    ensures FlattenBranches([Branch(c, body)] + bs) + FlattenOtherwise(o)
            == [Act(ElseIf(c))] + (Flatten(body) + (FlattenBranches(bs) + FlattenOtherwise(o)))
  {
    ConcatSplits([Branch(c, body)], bs);
    Regroup([Act(ElseIf(c))], Flatten(body), FlattenBranches(bs), FlattenOtherwise(o));
  }

  lemma {:induction false} OtherwiseIsFlattened(items: seq<Item>)
    requires ParseOtherwise(items).Done?
    ensures var r := ParseOtherwise(items);
            GoodOtherwise(r.value) && FlattenOtherwise(r.value) == items[..r.size]
    decreases |items|, 0
  {
    if items[0] == Act(Else) {
      var rest := items[1..];
      var body := ParseBlock(rest, true);
      BlockIsFlattened(rest, true);
      SlicesJoin(rest, body.size, 1);
      SlicesJoin(items, 1, body.size + 1);
      assert rest[body.size..][..1] == [Act(End)];
    }
  }

  /**
    The parser at top level accepts exactly the flattenings of well-formed trees and returns
    the tree: acceptance of precisely the well-nested lists, with a unique result.
   */
  lemma {:induction false} ParsesExactlyFlattenings(items: seq<Item>, nodes: seq<Node>)
    ensures ParseTemplate(items) == Some(nodes) <==> GoodNodes(nodes) && items == Flatten(nodes)
  {
    if GoodNodes(nodes) && items == Flatten(nodes) {
      BlockRoundTrip(nodes, [], false);
      assert Flatten(nodes) + [] == Flatten(nodes);
    }
    if ParseTemplate(items) == Some(nodes) {
      BlockIsFlattened(items, false);
      assert items[..|items|] == items;
    }
  }

  // ----- Whole templates, from the raw items of the scanner -----

  datatype RawItem = RawText(text: string) | RawAction(tokens: seq<Token>)

  function Classify(raw: RawItem): Item {
    match raw
    case RawText(s) => Text(s)
    case RawAction(ts) =>
      var a := ParseAction(ts);
      if a.None? then Broken else Act(a.value)
  }

  function Items(raw: seq<RawItem>): (items: seq<Item>)
    ensures |items| == |raw| && forall i :: 0 <= i < |raw| ==> items[i] == Classify(raw[i])
  {
    seq(|raw|, i requires 0 <= i < |raw| => Classify(raw[i]))
  }

  function ParseRaw(raw: seq<RawItem>): Option<seq<Node>> {
    ParseTemplate(Items(raw))
  }

  function PrintItem(item: Item): RawItem {
    match item
    case Text(s) => RawText(s)
    case Act(a) => RawAction(PrintAction(a))
    case Broken => RawAction([])
  }

  function PrintTemplate(nodes: seq<Node>): (raw: seq<RawItem>)
    ensures |raw| == |Flatten(nodes)|
    ensures forall i :: 0 <= i < |raw| ==> raw[i] == PrintItem(Flatten(nodes)[i])
  {
    var items := Flatten(nodes);
    seq(|items|, i requires 0 <= i < |items| => PrintItem(items[i]))
  }

  predicate GoodItem(item: Item) {
    item.Act? ==> GoodAction(item.action)
  }

  /** Well-nested, with every condition, loop and action printable. */
  predicate GoodTemplate(nodes: seq<Node>) {
    GoodNodes(nodes) && forall i :: 0 <= i < |Flatten(nodes)| ==> GoodItem(Flatten(nodes)[i])
  }

  lemma {:induction false} PrintedItem(item: Item)
    requires GoodItem(item)
    ensures Classify(PrintItem(item)) == item
  {
    if item.Act? {
      ActionRoundTrip(item.action);
    }
  }

  /** Whatever the parser accepts is a good tree, and its printed form stands for the same tree. */
  lemma {:induction false} ParsedTemplateIsGood(raw: seq<RawItem>)
    requires ParseRaw(raw).Some?
    ensures GoodTemplate(ParseRaw(raw).value)
    ensures ParseRaw(PrintTemplate(ParseRaw(raw).value)) == ParseRaw(raw)
  {
    var nodes := ParseRaw(raw).value;
    ParsesExactlyFlattenings(Items(raw), nodes);
    forall i | 0 <= i < |Flatten(nodes)|
      ensures GoodItem(Flatten(nodes)[i])
    {
      if raw[i].RawAction? && ParseAction(raw[i].tokens).Some? {
        ParsedActionIsGood(raw[i].tokens);
      }
    }
    TemplateRoundTrip(nodes);
  }

  lemma {:induction false} TemplateRoundTrip(nodes: seq<Node>)
    requires GoodTemplate(nodes)
    ensures ParseRaw(PrintTemplate(nodes)) == Some(nodes)
  {
    forall i | 0 <= i < |Flatten(nodes)|
      ensures Items(PrintTemplate(nodes))[i] == Flatten(nodes)[i]
    {
      PrintedItem(Flatten(nodes)[i]);
    }
    assert Items(PrintTemplate(nodes)) == Flatten(nodes);
    ParsesExactlyFlattenings(Flatten(nodes), nodes);
  }

  /** A tree survives printing down to tokens and parsing exactly when it is good. */
  lemma {:induction false} TemplateRoundTripIff(nodes: seq<Node>)
    ensures ParseRaw(PrintTemplate(nodes)) == Some(nodes) <==> GoodTemplate(nodes)
  {
    if GoodTemplate(nodes) {
      TemplateRoundTrip(nodes);
    }
    if ParseRaw(PrintTemplate(nodes)) == Some(nodes) {
      ParsedTemplateIsGood(PrintTemplate(nodes));
    }
  }

  // ----- The source's loops; the cursor is the slice still to be read -----

  lemma {:induction false} ItemsDrop(raw: seq<RawItem>, n: nat)
    requires n <= |raw|
    ensures Items(raw)[n..] == Items(raw[n..])
  {
  }

  lemma {:induction false} UnfoldBlock(items: seq<Item>, nested: bool)
    requires items != [] && !Stops(items[0])
    ensures var first := ParseNode(items);
            ParseBlock(items, nested)
            == if first.Fail? then Fail
               else Continued([first.value], first.size, ParseBlock(items[first.size..], nested))
  {
  }

  /** `parse_block`: each action is parsed when the cursor reaches it. */
  method ReadBlock(raw: seq<RawItem>, nested: bool) returns (r: Parsed<seq<Node>>)
    ensures r == ParseBlock(Items(raw), nested)
    decreases |raw|, 1
  {
    var nodes: seq<Node>, rest, n: nat := [], raw, 0;
    ghost var goal := ParseBlock(Items(raw), nested);
    ContinuedFromStart(goal);
    while rest != []
      invariant |rest| <= |raw|
      invariant goal == Continued(nodes, n, ParseBlock(Items(rest), nested))
      decreases |rest|
    {
      var item := Classify(rest[0]);
      if Stops(item) {
        assert nodes + [] == nodes;
        return if nested then Done(nodes, n) else Fail;
      }
      UnfoldBlock(Items(rest), nested);
      var node := ReadNode(item, rest[1..]);
      ItemsDrop(rest, 1);
      assert Items(rest) == [item] + Items(rest[1..]);
      if node.Fail? { return Fail; }
      ItemsDrop(rest, node.size);
      ContinuedAssociates(nodes, n, node.value, node.size, ParseBlock(Items(rest[node.size..]), nested));
      nodes, n, rest := nodes + [node.value], n + node.size, rest[node.size..];
    }
    assert nodes + [] == nodes;
    r := if nested then Fail else Done(nodes, n);
  }

  /** One item with the blocks it opens. */
  method ReadNode(item: Item, rest: seq<RawItem>) returns (r: Parsed<Node>)
    requires !Stops(item)
    ensures r == ParseNode([item] + Items(rest))
    decreases |rest|, 2
  {
    ConcatSplits([item], Items(rest));
    if item.Text? { return Done(TextNode(item.text), 1); }
    if item.Broken? { return Fail; }
    if item.action.Run? { return Done(ActionNode(item.action.assign, item.action.body), 1); }
    var body := ReadBlock(rest, true);
    if body.Fail? { return Fail; }
    ItemsDrop(rest, body.size);
    if item.action.If? {
      var chain := ReadChain(rest[body.size..]);
      if chain.Fail? { return Fail; }
      r := Done(IfNode([Branch(item.action.cond, body.value)] + chain.value.branches, chain.value.otherwise),
                1 + body.size + chain.size);
    } else {
      var last := ReadOtherwise(rest[body.size..]);
      if last.Fail? { return Fail; }
      r := Done(RangeNode(item.action.vars, item.action.over, body.value, last.value), 1 + body.size + last.size);
    }
  }

  ghost function Chained(done: seq<Branch>, size: nat, left: Parsed<Chain>): Parsed<Chain> {
    if left.Fail? then Fail else Done(Chain(done + left.value.branches, left.value.otherwise), size + left.size)
  }

  lemma {:induction false} ChainedAssociates(done: seq<Branch>, size: nat, b: Branch, n: nat, left: Parsed<Chain>)
    ensures Chained(done + [b], size + n, left) == Chained(done, size, Chained([b], n, left))
  {
    if left.Done? {
      ConcatAssociates(done, [b], left.value.branches);
    }
  }

  lemma {:induction false} UnfoldChain(items: seq<Item>, body: seq<Node>, n: nat)
    requires items != [] && items[0].Act? && items[0].action.ElseIf?
    requires ParseBlock(items[1..], true) == Done(body, n)
    ensures ParseChain(items) == Chained([Branch(items[0].action.cond, body)], 1 + n, ParseChain(items[1..][n..]))
  {
  }

  /** One else-if with its block. */
  method ReadBranch(raw: seq<RawItem>) returns (r: Parsed<Branch>)
    requires raw != [] && Classify(raw[0]).Act? && Classify(raw[0]).action.ElseIf?
    ensures r.Done? ==> 1 <= r.size <= |raw|
    ensures ParseChain(Items(raw))
            == if r.Fail? then Fail else Chained([r.value], r.size, ParseChain(Items(raw[r.size..])))
    decreases |raw|, 0
  {
    var body := ReadBlock(raw[1..], true);
    ItemsDrop(raw, 1);
    if body.Fail? { return Fail; }
    ItemsDrop(raw[1..], body.size);
    UnfoldChain(Items(raw), body.value, body.size);
    assert raw[1..][body.size..] == raw[1 + body.size..];
    r := Done(Branch(Classify(raw[0]).action.cond, body.value), 1 + body.size);
  }

  /** The loop after the first branch of an if. */
  method ReadChain(raw: seq<RawItem>) returns (r: Parsed<Chain>)
    ensures r == ParseChain(Items(raw))
    decreases |raw|, 1
  {
    var branches: seq<Branch>, rest, n: nat := [], raw, 0;
    ghost var goal := ParseChain(Items(raw));
    if goal.Done? {
      assert [] + goal.value.branches == goal.value.branches;
    }
    while rest != [] && Classify(rest[0]).Act? && Classify(rest[0]).action.ElseIf?
      invariant |rest| <= |raw|
      invariant goal == Chained(branches, n, ParseChain(Items(rest)))
      decreases |rest|
    {
      var link := ReadBranch(rest);
      if link.Fail? { return Fail; }
      var left := rest[link.size..];
      ChainedAssociates(branches, n, link.value, link.size, ParseChain(Items(left)));
      branches, n, rest := branches + [link.value], n + link.size, left;
    }
    var last := ReadOtherwise(rest);
    if last.Fail? { return Fail; }
    assert branches + [] == branches;
    r := Done(Chain(branches, last.value), n + last.size);
  }

  method ReadOtherwise(raw: seq<RawItem>) returns (r: Parsed<Otherwise>)
    ensures r == ParseOtherwise(Items(raw))
    decreases |raw|, 0
  {
    if raw == [] { return Fail; }
    if Classify(raw[0]) == Act(End) { return Done(NoElse, 1); }
    if Classify(raw[0]) != Act(Else) { return Fail; }
    var body := ReadBlock(raw[1..], true);
    ItemsDrop(raw, 1);
    if body.Fail? || Classify(raw[1..][body.size]) != Act(End) { return Fail; }
    r := Done(ElseBlock(body.value), body.size + 2);
  }

  /** `parse_template`, after scanning. */
  method ReadTemplate(raw: seq<RawItem>) returns (r: Option<seq<Node>>)
    ensures r == ParseRaw(raw)
  {
    var nodes := ReadBlock(raw, false);
    r := if nodes.Fail? then None else Some(nodes.value);
  }
}
