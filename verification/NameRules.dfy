/** Which tool names are prefixed, and how, in terms of the names themselves. */
module NameRules {
  import opened Bytes
  import opened ToolNames
  import opened ToolPrefixer

  /** Underscores become hyphens, byte by byte. */
  lemma HyphenateIs(name: Name, i: nat)
    requires i < |name|
    ensures Hyphenate(name)[i] == if name[i] == 95 then 45 else name[i]
  {
  }

  /** Names of external tools and of built-in ones stay; any other gets the prefix and its normal form, unless a tool has that name. */
  lemma PrefixedRule(s: Setup, name: Name)
    ensures var candidate := Ascii("mcp__tools__mcp-") + s.lower(Hyphenate(name));
            Prefixed(s, name) ==
            if HasPrefix(name, Ascii("mcp__")) || name in s.builtins || candidate in s.originals then name else candidate
  {
    ShimIsExternal(name);
    hide Hyphenate, HasPrefix;
  }

  lemma ShimIsExternal(name: Name)
    ensures HasPrefix(name, SHIM) ==> HasPrefix(name, EXTERNAL)
  {
    if HasPrefix(name, SHIM) {
      assert SHIM[..5] == EXTERNAL;
      assert name[..16][..5] == name[..5];
    }
  }

  /** A tool entry with a type keeps its name; one without gets the prefixed name. */
  lemma ToolRule(lower: Name -> Name, tools: seq<Tool>, i: nat)
    requires i < |tools|
    ensures var s, tool := SetupOf(lower, tools), tools[i];
            && (tool.typ != [] ==> ToolAfter(s, tool) == tool)
            && (tool.typ == [] && tool.name != [] && !HasPrefix(tool.name, Ascii("mcp__"))
                && (forall j :: 0 <= j < |tools| ==> tools[j].name != Ascii("mcp__tools__mcp-") + lower(Hyphenate(tool.name)))
                && (forall j :: 0 <= j < |tools| && tools[j].typ != [] ==> tools[j].name != tool.name)
                ==> ToolAfter(s, tool).name == Ascii("mcp__tools__mcp-") + lower(Hyphenate(tool.name)))
  {
    PrefixedRule(SetupOf(lower, tools), tools[i].name);
    hide Hyphenate, HasPrefix, Prefixed, Ascii;
  }


  /** In the request text: a name is replaced where a tool is used, where its result refers to it, and in references inside a result. */
  lemma ReplacedPlaces(s: Setup, name: Name, other: seq<Node>)
    requires name != []
    ensures var new_ := Prefixed(s, name);
            var use, reference := Node(ToolUse, name, [], other), Node(ToolReference, name, [], other);
            var use', reference' := Node(ToolUse, new_, [], other), Node(ToolReference, new_, [], other);
            var result, result' := Node(ToolResult, [], [reference], other), Node(ToolResult, [], [reference'], other);
            PrefixMessages(s, [Node(OtherKind, [], [use, reference, result], other)])
            == [Node(OtherKind, [], [use', reference', result'], other)]
  {
    hide Prefixed;
    var use, reference := Node(ToolUse, name, [], other), Node(ToolReference, name, [], other);
    var result := Node(ToolResult, [], [reference], other);
    assert [use, reference, result][1..] == [reference, result] && [reference, result][1..] == [result];
    assert [result][1..] == [] && [reference][1..] == [];
    assert PrefixRefs(s, [reference]) == [PrefixSlot(s, reference)];
    assert PrefixItems(s, [result]) == [PrefixItem(s, result)];
    assert PrefixItems(s, [reference, result]) == [PrefixItem(s, reference), PrefixItem(s, result)];
    var use', reference' := Node(ToolUse, Prefixed(s, name), [], other), Node(ToolReference, Prefixed(s, name), [], other);
    var result' := Node(ToolResult, [], [reference'], other);
    assert PrefixSlot(s, use) == use' && PrefixSlot(s, reference) == reference';
    assert PrefixItem(s, use) == use' && PrefixItem(s, reference) == reference' && PrefixItem(s, result) == result';
    assert PrefixItems(s, [use, reference, result]) == [use', reference', result'];
    var message := Node(OtherKind, [], [use, reference, result], other);
    assert message.content == [use, reference, result];
    OneMessage(s, message);
  }

  lemma OneMessage(s: Setup, message: Node)
    ensures PrefixMessages(s, [message]) == [message.(content := PrefixItems(s, message.content))]
  {
    hide PrefixItems;
    assert [message][1..] == [];
  }

  /** Nothing else is: neither text, nor what lies beside the content of a message or item. */
  lemma OtherPlacesKept(s: Setup, messages: seq<Node>)
    requires forall i, j :: 0 <= i < |messages| && 0 <= j < |messages[i].content| ==> messages[i].content[j].kind == OtherKind
    ensures PrefixMessages(s, messages) == messages
    decreases |messages|
  {
    if messages != [] {
      OtherItemsKept(s, messages[0].content);
      assert forall i, j :: 0 <= i < |messages| - 1 && 0 <= j < |messages[1..][i].content| ==>
          messages[1..][i].content[j] == messages[i + 1].content[j];
      OtherPlacesKept(s, messages[1..]);
      assert messages == [messages[0]] + messages[1..];
    }
  }

  lemma {:induction false} OtherItemsKept(s: Setup, items: seq<Node>)
    requires forall j :: 0 <= j < |items| ==> items[j].kind == OtherKind
    ensures PrefixItems(s, items) == items
  {
    if items != [] {
      OtherItemsKept(s, items[1..]);
      assert items == [items[0]] + items[1..];
    }
  }

  // ---- An example -----------------------------------------------------------------------------

  lemma ReadFile()
    ensures Prefixed(Setup(LowerAscii, {}, {}), Ascii("Read_File")) == Ascii("mcp__tools__mcp-") + Ascii("read-file")
  {
    var name := Ascii("Read_File");
    PrefixedRule(Setup(LowerAscii, {}, {}), name);
    assert LowerAscii(Hyphenate(name)) == Ascii("read-file");
    assert name[..5][0] == 82 && Ascii("mcp__")[0] == 109;
  }
}
