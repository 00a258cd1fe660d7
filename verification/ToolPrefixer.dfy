/** The pass over a request that prefixes tool names, and its inverse, as the loops they are. */
module ToolPrefixer {
  import opened Bytes
  import opened ToolNames

  /** Names in use and the reverse map, both growing while a request is rewritten. */
  class Allocator {
    const setup: Setup
    var nameSet: set<Name>
    var reverse: Reverse
    ghost var seen: seq<Name>

    ghost predicate Valid()
      reads this
    {
      nameSet == setup.originals + reverse.Keys && reverse == ReverseOf(setup, seen)
    }

    constructor (setup: Setup)
      ensures Valid() && this.setup == setup && seen == []
    {
      this.setup := setup;
      nameSet := setup.originals;
      reverse := map[];
      seen := [];
    }

    method PrefixName(name: Name) returns (newName: Name, did: bool)
      requires Valid()
      modifies this
      ensures Valid() && seen == old(seen) + [name]
      ensures newName == Prefixed(setup, name) && did == Renamed(setup, name)
    {
      ReverseSound(setup, seen);
      assert (seen + [name])[..|seen|] == seen;
      seen := seen + [name];
      if HasPrefix(name, SHIM) {
        return name, false;
      }
      if HasPrefix(name, EXTERNAL) {
        return name, false;
      }
      if name in setup.builtins {
        return name, false;
      }
      var candidate := Candidate(setup, name);
      if candidate in reverse {
        return candidate, true;
      }
      if candidate in nameSet {
        return name, false;
      }
      nameSet := nameSet + {candidate};
      reverse := reverse[candidate := name];
      return candidate, true;
    }

    method PrefixNode(n: Node) returns (r: Node)
      requires Valid()
      modifies this
      ensures Valid() && r == PrefixSlot(setup, n) && seen == old(seen) + SeenSlot(n)
    {
      r := n;
      if n.kind != OtherKind && n.name != [] {
        var newName, did := PrefixName(n.name);
        if did {
          r := n.(name := newName);
        }
      }
    }

    method PrefixReferences(ns: seq<Node>) returns (r: seq<Node>)
      requires Valid()
      modifies this
      ensures Valid() && r == PrefixRefs(setup, ns) && seen == old(seen) + SeenRefs(ns)
    {
      hide Valid, PrefixSlot, SeenSlot;
      r := [];
      for i := 0 to |ns|
        invariant Valid() && seen == old(seen) + SeenRefs(ns[..i])
        invariant r == PrefixRefs(setup, ns[..i])
      {
        assert ns[..i + 1][..i] == ns[..i];
        PrefixRefsSnoc(setup, ns[..i], ns[i]);
        assert ns[..i + 1] == ns[..i] + [ns[i]];
        var n := ns[i];
        if n.kind == ToolReference {
          n := PrefixNode(n);
        }
        r := r + [n];
      }
      assert ns[..|ns|] == ns;
    }

    method PrefixOneItem(item: Node) returns (r: Node)
      requires Valid()
      modifies this
      ensures Valid() && r == PrefixItem(setup, item) && seen == old(seen) + SeenItem(item)
    {
      hide Valid, PrefixSlot, SeenSlot, PrefixRefs, SeenRefs;
      SlotKeepsContent(setup, item);
      r := PrefixNode(item);
      if item.kind == ToolResult {
        ghost var slot := SeenSlot(item);
        var content := PrefixReferences(item.content);
        r := r.(content := content);
        assert seen == old(seen) + slot + SeenRefs(item.content);
      }
    }

    method PrefixContent(items: seq<Node>) returns (r: seq<Node>)
      requires Valid()
      modifies this
      ensures Valid() && r == PrefixItems(setup, items) && seen == old(seen) + SeenItems(items)
    {
      hide Valid, PrefixItem, SeenItem;
      r := [];
      for i := 0 to |items|
        invariant Valid() && seen == old(seen) + SeenItems(items[..i])
        invariant r == PrefixItems(setup, items[..i])
      {
        assert items[..i + 1][..i] == items[..i];
        PrefixItemsSnoc(setup, items[..i], items[i]);
        assert items[..i + 1] == items[..i] + [items[i]];
        var item := PrefixOneItem(items[i]);
        r := r + [item];
      }
      assert items[..|items|] == items;
    }

    method PrefixAll(messages: seq<Node>) returns (r: seq<Node>)
      requires Valid()
      modifies this
      ensures Valid() && r == PrefixMessages(setup, messages) && seen == old(seen) + SeenMessages(messages)
    {
      hide Valid, PrefixItems, SeenItems;
      r := [];
      for i := 0 to |messages|
        invariant Valid() && seen == old(seen) + SeenMessages(messages[..i])
        invariant r == PrefixMessages(setup, messages[..i])
      {
        assert messages[..i + 1][..i] == messages[..i];
        PrefixMessagesSnoc(setup, messages[..i], messages[i]);
        assert messages[..i + 1] == messages[..i] + [messages[i]];
        var content := PrefixContent(messages[i].content);
        r := r + [messages[i].(content := content)];
      }
      assert messages[..|messages|] == messages;
    }

    method PrefixTools(tools: seq<Tool>) returns (r: seq<Tool>)
      requires Valid()
      modifies this
      ensures Valid() && seen == old(seen) + SeenTools(tools)
      ensures |r| == |tools|
      ensures forall i :: 0 <= i < |tools| ==> r[i] == ToolAfter(setup, tools[i])
    {
      hide Valid, Prefixed, Renamed;
      r := [];
      for i := 0 to |tools|
        invariant Valid() && seen == old(seen) + SeenTools(tools[..i])
        invariant |r| == i && forall k :: 0 <= k < i ==> r[k] == ToolAfter(setup, tools[k])
      {
        assert tools[..i + 1][..i] == tools[..i];
        var tool := tools[i];
        if tool.typ != [] || tool.name == [] {
          r := r + [tool];
          continue;
        }
        var newName, did := PrefixName(tool.name);
        r := r + [tool.(name := newName)];
      }
      assert tools[..|tools|] == tools;
    }
  }

  function ToolAfter(s: Setup, tool: Tool): Tool
  {
    if tool.typ != [] || tool.name == [] then tool else tool.(name := Prefixed(s, tool.name))
  }

  lemma {:induction false} PrefixRefsSnoc(s: Setup, ns: seq<Node>, n: Node)
    ensures PrefixRefs(s, ns + [n]) == PrefixRefs(s, ns) + [if n.kind == ToolReference then PrefixSlot(s, n) else n]
  {
    hide PrefixSlot;
    if ns != [] {
      PrefixRefsSnoc(s, ns[1..], n);
      assert (ns + [n])[1..] == ns[1..] + [n];
    }
  }

  lemma {:induction false} PrefixItemsSnoc(s: Setup, items: seq<Node>, item: Node)
    ensures PrefixItems(s, items + [item]) == PrefixItems(s, items) + [PrefixItem(s, item)]
  {
    hide PrefixItem;
    if items != [] {
      PrefixItemsSnoc(s, items[1..], item);
      assert (items + [item])[1..] == items[1..] + [item];
    }
  }

  lemma {:induction false} PrefixMessagesSnoc(s: Setup, messages: seq<Node>, m: Node)
    ensures PrefixMessages(s, messages + [m]) == PrefixMessages(s, messages) + [m.(content := PrefixItems(s, m.content))]
  {
    hide PrefixItems;
    if messages != [] {
      PrefixMessagesSnoc(s, messages[1..], m);
      assert (messages + [m])[1..] == messages[1..] + [m];
    }
  }

  lemma SlotKeepsContent(s: Setup, n: Node)
    ensures PrefixSlot(s, n).content == n.content && PrefixSlot(s, n).kind == n.kind
  {
  }

  // ---- A whole request ---------------------------------------------------------------------

  /** The names of all tools, and those of the built-in ones. */
  function OriginalNames(tools: seq<Tool>): set<Name>
  {
    set i | 0 <= i < |tools| :: tools[i].name
  }

  function BuiltinNames(tools: seq<Tool>): set<Name>
  {
    set i | 0 <= i < |tools| && tools[i].typ != [] && tools[i].name != [] :: tools[i].name
  }

  function SetupOf(lower: Name -> Name, tools: seq<Tool>): Setup
  {
    Setup(lower, OriginalNames(tools), BuiltinNames(tools))
  }

  /** tool_choice takes the prefixed name if the tools pass has put it into the reverse map. */
  function ChoiceAfter(s: Setup, reverse: Reverse, choice: Choice): Choice
  {
    match choice
    case NoChoice => NoChoice
    case Choose(name) =>
      if name != [] && Candidate(s, name) in reverse then Choose(Candidate(s, name)) else choice
  }

  /** PrefixClaudeToolNamesWithMap. */
  method Prefix(lower: Name -> Name, tools: seq<Tool>, choice: Choice, messages: seq<Node>)
    returns (tools': seq<Tool>, choice': Choice, messages': seq<Node>, reverse: Reverse)
    ensures var s := SetupOf(lower, tools);
            && |tools'| == |tools| && (forall i :: 0 <= i < |tools| ==> tools'[i] == ToolAfter(s, tools[i]))
            && choice' == ChoiceAfter(s, ReverseOf(s, SeenTools(tools)), choice)
            && messages' == PrefixMessages(s, messages)
            && reverse == ReverseOf(s, SeenTools(tools) + SeenMessages(messages))
  {
    hide SeenTools, SeenMessages, ReverseOf, PrefixMessages, Prefixed, OriginalNames, BuiltinNames;
    var names, builtins := CollectNames(tools);
    var a := new Allocator(Setup(lower, names, builtins));
    tools' := a.PrefixTools(tools);
    assert [] + SeenTools(tools) == SeenTools(tools);
    choice' := choice;
    if choice.Choose? && choice.name != [] {
      var prefixed := SHIM + TransformToolName(a.setup, choice.name);
      if prefixed in a.reverse {
        choice' := Choose(prefixed);
      }
    }
    messages' := a.PrefixAll(messages);
    reverse := a.reverse;
  }

  method CollectNames(tools: seq<Tool>) returns (names: set<Name>, builtins: set<Name>)
    ensures names == OriginalNames(tools) && builtins == BuiltinNames(tools)
  {
    names, builtins := {}, {};
    for i := 0 to |tools|
      invariant names == set k | 0 <= k < i :: tools[k].name
      invariant builtins == set k | 0 <= k < i && tools[k].typ != [] && tools[k].name != [] :: tools[k].name
    {
      names := names + {tools[i].name};
      if tools[i].typ != [] && tools[i].name != [] {
        builtins := builtins + {tools[i].name};
      }
    }
  }

  /** The reverse map of a request: no key is a tool name of the request, each key is the prefix plus the normal form
      of its value. */
  lemma ReverseMapSound(lower: Name -> Name, tools: seq<Tool>, messages: seq<Node>)
    ensures var s := SetupOf(lower, tools);
            var reverse := ReverseOf(s, SeenTools(tools) + SeenMessages(messages));
            forall k :: k in reverse ==>
              && (forall i :: 0 <= i < |tools| ==> tools[i].name != k)
              && k == SHIM + TransformToolName(s, reverse[k])
  {
    ReverseSound(SetupOf(lower, tools), SeenTools(tools) + SeenMessages(messages));
  }

  predicate SameNormalForm(s: Setup, x: Name, y: Name)
  {
    TransformToolName(s, x) == TransformToolName(s, y)
  }

  /**
    * tool_choice names the tool it named before, unless that tool keeps its name (built-in or external) while another
    * tool of the same normal form was prefixed.
    */
  lemma ChoiceFollowsToolIff(lower: Name -> Name, tools: seq<Tool>, i: nat)
    requires i < |tools| && tools[i].name != []
    ensures var s, name := SetupOf(lower, tools), tools[i].name;
            ChoiceAfter(s, ReverseOf(s, SeenTools(tools)), Choose(name)) == Choose(ToolAfter(s, tools[i]).name) <==>
            Eligible(s, name) || !exists y :: y in SeenTools(tools) && Renamed(s, y) && SameNormalForm(s, y, name)
  {
    var s, name := SetupOf(lower, tools), tools[i].name;
    KeyIff(s, SeenTools(tools), Candidate(s, name));
    forall y
      ensures Candidate(s, y) == Candidate(s, name) <==> SameNormalForm(s, y, name)
    {
      SameForm(s, y, name);
    }
    ReverseSound(s, SeenTools(tools));
    assert name in s.originals;
    if Renamed(s, name) {
      assert tools[i].typ == [];
      SeenToolsHas(tools, i);
      var seen := SeenTools(tools);
      var k :| 0 <= k < |seen| && seen[k] == name;
      ReverseComplete(s, seen);
    }
    hide Candidate;
  }

  lemma {:induction false} SeenToolsHas(tools: seq<Tool>, i: nat)
    requires i < |tools| && tools[i].typ == [] && tools[i].name != []
    ensures tools[i].name in SeenTools(tools)
  {
    var n := |tools| - 1;
    if i < n {
      SeenToolsHas(tools[..n], i);
    }
  }

  /** A concrete case of that exception: choosing the built-in `web_search` beside a custom `web-search` picks the latter. */
  lemma ChoiceDrifts(lower: Name -> Name, typ: bytes)
    requires typ != []
    ensures var builtin, custom := Tool(Ascii("web_search"), typ), Tool(Ascii("web-search"), []);
            var s := SetupOf(lower, [builtin, custom]);
            && ToolAfter(s, builtin) == builtin
            && Choose(ToolAfter(s, custom).name) == ChoiceAfter(s, ReverseOf(s, SeenTools([builtin, custom])), Choose(builtin.name))
            && ToolAfter(s, custom).name != builtin.name
  {
    var builtin, custom := Tool(Ascii("web_search"), typ), Tool(Ascii("web-search"), []);
    var tools := [builtin, custom];
    var s := SetupOf(lower, tools);
    assert forall i :: 0 <= i < 2 ==> |tools[i].name| == 10;
    assert forall x :: x in s.originals ==> |x| == 10;
    assert Hyphenate(builtin.name) == Hyphenate(custom.name);
    assert custom.name[3] == HYPHEN && builtin.name[3] == UNDERSCORE;
    assert s.builtins == {builtin.name} by {
      assert tools[0] == builtin && tools[1] == custom;
    }
    assert Renamed(s, custom.name);
    SeenToolsHas(tools, 1);
    var seen := SeenTools(tools);
    var k :| 0 <= k < |seen| && seen[k] == custom.name;
    ReverseComplete(s, seen);
  }
}
