/** Prefixing tool names on the way out and restoring them on the way back. */
module ToolNames {
  import opened Bytes

  const SHIM := Ascii("mcp__tools__mcp-")
  const EXTERNAL := Ascii("mcp__")
  const UNDERSCORE: byte := 95
  const HYPHEN: byte := 45

  type Name = bytes

  function Hyphenate(name: Name): (r: Name)
    ensures |r| == |name|
  {
    seq(|name|, i requires 0 <= i < |name| => if name[i] == UNDERSCORE then HYPHEN else name[i])
  }

  /** A tool entry; the type of a built-in tool is not empty. */
  datatype Tool = Tool(name: Name, typ: bytes)

  datatype Kind = ToolUse | ToolResult | ToolReference | OtherKind

  /**
    * A JSON object of the messages: its kind, the name field that kind has (empty if there is none), the elements of
    * its `content` array, and all objects nested elsewhere in it.
    */
  datatype Node = Node(kind: Kind, name: Name, content: seq<Node>, others: seq<Node>)

  datatype Choice = NoChoice | Choose(name: Name)

  /** What stays fixed while a request is prefixed. */
  datatype Setup = Setup(lower: Name -> Name, originals: set<Name>, builtins: set<Name>)

  function TransformToolName(s: Setup, name: Name): Name
  {
    s.lower(Hyphenate(name))
  }

  function Candidate(s: Setup, name: Name): Name
  {
    SHIM + TransformToolName(s, name)
  }

  predicate Eligible(s: Setup, name: Name)
  {
    !HasPrefix(name, SHIM) && !HasPrefix(name, EXTERNAL) && name !in s.builtins
  }

  /** Whether a name is replaced at all: eligible, and its candidate is not the name of a tool. */
  predicate Renamed(s: Setup, name: Name)
  {
    Eligible(s, name) && Candidate(s, name) !in s.originals
  }

  function Prefixed(s: Setup, name: Name): Name
  {
    if Renamed(s, name) then Candidate(s, name) else name
  }

  // ---- The reverse map in closed form ------------------------------------------------------

  type Reverse = map<Name, Name>

  /** The reverse map after the names have been seen in order: the first owner of a candidate keeps it. */
  function ReverseOf(s: Setup, seen: seq<Name>): Reverse
  {
    if seen == [] then map[]
    else
      var r, name := ReverseOf(s, seen[..|seen| - 1]), seen[|seen| - 1];
      if Renamed(s, name) && Candidate(s, name) !in r then r[Candidate(s, name) := name] else r
  }

  /** No key is an original tool name; each key is the prefix plus the normal form of its value, which was seen. */
  lemma {:induction false} ReverseSound(s: Setup, seen: seq<Name>)
    ensures forall k :: k in ReverseOf(s, seen) ==>
              var name := ReverseOf(s, seen)[k];
              k !in s.originals && k == Candidate(s, name) && Renamed(s, name) && name in seen
  {
    hide Renamed, Candidate;
    if seen != [] {
      ReverseSound(s, seen[..|seen| - 1]);
      CandidateOfRenamed(s, seen[|seen| - 1]);
    }
  }

  lemma CandidateOfRenamed(s: Setup, name: Name)
    ensures Renamed(s, name) ==> Candidate(s, name) !in s.originals
    ensures HasPrefix(Candidate(s, name), SHIM)
  {
  }

  /** Every renamed name seen has its candidate in the map, and owners are never displaced. */
  lemma {:induction false} ReverseComplete(s: Setup, seen: seq<Name>)
    ensures forall i :: 0 <= i < |seen| && Renamed(s, seen[i]) ==> Candidate(s, seen[i]) in ReverseOf(s, seen)
  {
    hide Renamed, Candidate;
    if seen != [] {
      var n := |seen| - 1;
      ReverseComplete(s, seen[..n]);
      assert forall i :: 0 <= i < n ==> seen[..n][i] == seen[i];
    }
  }

  lemma {:induction false} ReverseGrows(s: Setup, seen: seq<Name>, more: seq<Name>)
    ensures forall k :: k in ReverseOf(s, seen) ==>
              k in ReverseOf(s, seen + more) && ReverseOf(s, seen + more)[k] == ReverseOf(s, seen)[k]
  {
    hide Renamed, Candidate;
    if more == [] {
      assert seen + more == seen;
    } else {
      var n := |more| - 1;
      ReverseGrows(s, seen, more[..n]);
      assert (seen + more)[..|seen| + n] == seen + more[..n];
    }
  }

  /** The owner of a candidate is the first renamed name seen that has it. */
  lemma ReverseFirst(s: Setup, seen: seq<Name>, i: nat)
    requires i < |seen| && Renamed(s, seen[i])
    requires forall j :: 0 <= j < i && Renamed(s, seen[j]) ==> Candidate(s, seen[j]) != Candidate(s, seen[i])
    ensures Candidate(s, seen[i]) in ReverseOf(s, seen) && ReverseOf(s, seen)[Candidate(s, seen[i])] == seen[i]
  {
    hide Renamed, Candidate;
    var front := seen[..i];
    ReverseSound(s, front);
    assert forall j :: 0 <= j < i ==> front[j] == seen[j];
    var c := Candidate(s, seen[i]);
    assert forall name :: name in front && Renamed(s, name) ==> Candidate(s, name) != c;
    assert c !in ReverseOf(s, front);
    var upTo := seen[..i + 1];
    assert upTo[..i] == front && upTo[i] == seen[i];
    assert ReverseOf(s, upTo)[c] == seen[i];
    ReverseGrows(s, upTo, seen[i + 1..]);
    assert seen == upTo + seen[i + 1..];
  }

  // ---- Prefixing and unprefixing the messages ----------------------------------------------

  predicate Slot(n: Node)
  {
    n.kind != OtherKind && n.name != []
  }

  function PrefixSlot(s: Setup, n: Node): Node
  {
    if Slot(n) then n.(name := Prefixed(s, n.name)) else n
  }

  /** The references directly inside a tool result. */
  function PrefixRefs(s: Setup, ns: seq<Node>): seq<Node>
  {
    if ns == [] then []
    else [if ns[0].kind == ToolReference then PrefixSlot(s, ns[0]) else ns[0]] + PrefixRefs(s, ns[1..])
  }

  function PrefixItem(s: Setup, item: Node): Node
  {
    var renamed := PrefixSlot(s, item);
    if item.kind == ToolResult then renamed.(content := PrefixRefs(s, item.content)) else renamed
  }

  function PrefixItems(s: Setup, items: seq<Node>): seq<Node>
  {
    if items == [] then [] else [PrefixItem(s, items[0])] + PrefixItems(s, items[1..])
  }

  function PrefixMessages(s: Setup, messages: seq<Node>): seq<Node>
  {
    if messages == [] then []
    else [messages[0].(content := PrefixItems(s, messages[0].content))] + PrefixMessages(s, messages[1..])
  }

  /** The walk over a whole JSON value. */
  function Unprefix(reverse: Reverse, n: Node): Node
    decreases n, 0
  {
    Node(n.kind, if n.kind != OtherKind && n.name in reverse then reverse[n.name] else n.name,
         UnprefixAll(reverse, n.content), UnprefixAll(reverse, n.others))
  }

  function UnprefixAll(reverse: Reverse, ns: seq<Node>): seq<Node>
    decreases ns, 1
  {
    if ns == [] then [] else [Unprefix(reverse, ns[0])] + UnprefixAll(reverse, ns[1..])
  }

  // ---- Which names are seen, and in which order ---------------------------------------------

  function SeenSlot(n: Node): seq<Name>
  {
    if Slot(n) then [n.name] else []
  }

  function SeenRefs(ns: seq<Node>): seq<Name>
  {
    if ns == [] then []
    else
      var last := ns[|ns| - 1];
      SeenRefs(ns[..|ns| - 1]) + if last.kind == ToolReference then SeenSlot(last) else []
  }

  function SeenItem(item: Node): seq<Name>
  {
    SeenSlot(item) + if item.kind == ToolResult then SeenRefs(item.content) else []
  }

  function SeenItems(items: seq<Node>): seq<Name>
  {
    if items == [] then [] else SeenItems(items[..|items| - 1]) + SeenItem(items[|items| - 1])
  }

  function SeenMessages(messages: seq<Node>): seq<Name>
  {
    if messages == [] then []
    else SeenMessages(messages[..|messages| - 1]) + SeenItems(messages[|messages| - 1].content)
  }

  /** Tools without a type, in order. */
  function SeenTools(tools: seq<Tool>): seq<Name>
  {
    if tools == [] then []
    else
      var last := tools[|tools| - 1];
      SeenTools(tools[..|tools| - 1]) + if last.typ == [] && last.name != [] then [last.name] else []
  }

  lemma {:induction false} SeenRefsCons(ns: seq<Node>)
    requires ns != []
    ensures SeenRefs(ns) == (if ns[0].kind == ToolReference then SeenSlot(ns[0]) else []) + SeenRefs(ns[1..])
  {
    hide SeenSlot;
    var n := |ns| - 1;
    if n > 0 {
      SeenRefsCons(ns[..n]);
      assert ns[..n][1..] == ns[1..][..n - 1];
    }
  }

  lemma {:induction false} SeenItemsCons(items: seq<Node>)
    requires items != []
    ensures SeenItems(items) == SeenItem(items[0]) + SeenItems(items[1..])
  {
    hide SeenItem;
    var n := |items| - 1;
    if n > 0 {
      SeenItemsCons(items[..n]);
      assert items[..n][1..] == items[1..][..n - 1];
    }
  }

  lemma {:induction false} SeenMessagesCons(messages: seq<Node>)
    requires messages != []
    ensures SeenMessages(messages) == SeenItems(messages[0].content) + SeenMessages(messages[1..])
  {
    hide SeenItems;
    var n := |messages| - 1;
    if n > 0 {
      SeenMessagesCons(messages[..n]);
      assert messages[..n][1..] == messages[1..][..n - 1];
    }
  }

  /** All names an object carries, at any depth, visited or not. */
  function NamesOf(n: Node): set<Name>
    decreases n, 0
  {
    (if n.kind == OtherKind then {} else {n.name}) + NamesIn(n.content) + NamesIn(n.others)
  }

  function NamesIn(ns: seq<Node>): set<Name>
    decreases ns, 1
  {
    if ns == [] then {} else NamesOf(ns[0]) + NamesIn(ns[1..])
  }

  // ---- What a reverse map restores -----------------------------------------------------------

  /** Keys carry the prefix and values do not. */
  ghost predicate Proper(reverse: Reverse)
  {
    forall k :: k in reverse ==> HasPrefix(k, SHIM) && !HasPrefix(reverse[k], SHIM)
  }

  /** A map in which every renamed name seen is found again. */
  ghost predicate Restores(s: Setup, reverse: Reverse, seen: seq<Name>)
  {
    forall x :: x in seen && Renamed(s, x) ==> Candidate(s, x) in reverse && reverse[Candidate(s, x)] == x
  }

  lemma RestoresBoth(s: Setup, reverse: Reverse, a: seq<Name>, b: seq<Name>)
    ensures Restores(s, reverse, a + b) <==> Restores(s, reverse, a) && Restores(s, reverse, b)
  {
    hide Renamed, Candidate;
    assert forall x :: x in a || x in b ==> x in a + b;
  }

  /** The walk leaves an object alone exactly if no name in it is a key. */
  lemma {:induction false} UntouchedIff(reverse: Reverse, n: Node)
    requires Proper(reverse)
    ensures Unprefix(reverse, n) == n <==> NamesOf(n) !! reverse.Keys
    decreases n, 0
  {
    UntouchedAllIff(reverse, n.content);
    UntouchedAllIff(reverse, n.others);
  }

  lemma {:induction false} UntouchedAllIff(reverse: Reverse, ns: seq<Node>)
    requires Proper(reverse)
    ensures UnprefixAll(reverse, ns) == ns <==> NamesIn(ns) !! reverse.Keys
    decreases ns, 1
  {
    if ns != [] {
      UntouchedIff(reverse, ns[0]);
      UntouchedAllIff(reverse, ns[1..]);
      Cons(Unprefix(reverse, ns[0]), UnprefixAll(reverse, ns[1..]), ns);
    }
  }

  lemma Cons<T>(x: T, xs: seq<T>, ys: seq<T>)
    requires ys != []
    ensures [x] + xs == ys <==> x == ys[0] && xs == ys[1..]
  {
    assert ys == [ys[0]] + ys[1..];
    assert ([x] + xs)[1..] == xs;
  }

  lemma UnprefixName(reverse: Reverse, n: Node)
    ensures Unprefix(reverse, n).name == if n.kind != OtherKind && n.name in reverse then reverse[n.name] else n.name
    ensures Unprefix(reverse, n).kind == n.kind
    ensures Unprefix(reverse, n).content == UnprefixAll(reverse, n.content)
    ensures Unprefix(reverse, n).others == UnprefixAll(reverse, n.others)
  {
  }

  lemma UnprefixAllCons(reverse: Reverse, n: Node, ns: seq<Node>)
    ensures UnprefixAll(reverse, [n] + ns) == [Unprefix(reverse, n)] + UnprefixAll(reverse, ns)
  {
    assert ([n] + ns)[1..] == ns;
  }

  /** A visited name comes back exactly if it is no key and, when renamed, found again. */
  lemma SlotIff(s: Setup, reverse: Reverse, n: Node)
    requires Proper(reverse)
    ensures var m := PrefixSlot(s, n);
            && m.kind == n.kind && m.content == n.content && m.others == n.others
            && (Unprefix(reverse, m).name == n.name <==>
                (n.kind == OtherKind || n.name !in reverse) && Restores(s, reverse, SeenSlot(n)))
  {
    hide Unprefix, UnprefixAll;
    CandidateOfRenamed(s, n.name);
    UnprefixName(reverse, PrefixSlot(s, n));
    assert Slot(n) ==> n.name in SeenSlot(n);
  }

  lemma {:induction false} RefsIff(s: Setup, reverse: Reverse, ns: seq<Node>)
    requires Proper(reverse)
    ensures UnprefixAll(reverse, PrefixRefs(s, ns)) == ns <==>
            NamesIn(ns) !! reverse.Keys && Restores(s, reverse, SeenRefs(ns))
  {
    hide Unprefix, PrefixSlot, Restores, SeenSlot, Proper;
    if ns == [] {
      NothingToRestore(s, reverse);
    } else {
      var n := ns[0];
      var m := if n.kind == ToolReference then PrefixSlot(s, n) else n;
      var rest := PrefixRefs(s, ns[1..]);
      RefsIff(s, reverse, ns[1..]);
      UnprefixAllCons(reverse, m, rest);
      Cons(Unprefix(reverse, m), UnprefixAll(reverse, rest), ns);
      SeenRefsCons(ns);
      RestoresBoth(s, reverse, SeenSlot(n), SeenRefs(ns[1..]));
      NodeIff(s, reverse, n);
      UntouchedIff(reverse, n);
      assert [] + SeenRefs(ns[1..]) == SeenRefs(ns[1..]);
    }
  }

  lemma NothingToRestore(s: Setup, reverse: Reverse)
    ensures Restores(s, reverse, [])
  {
  }

  /** A visited object whose contents are not visited. */
  lemma NodeIff(s: Setup, reverse: Reverse, n: Node)
    requires Proper(reverse)
    ensures Unprefix(reverse, PrefixSlot(s, n)) == n <==>
            NamesOf(n) !! reverse.Keys && Restores(s, reverse, SeenSlot(n))
  {
    hide Unprefix, UnprefixAll, PrefixSlot, Restores, SeenSlot, Proper, NamesIn;
    SlotIff(s, reverse, n);
    UnprefixName(reverse, PrefixSlot(s, n));
    UntouchedAllIff(reverse, n.content);
    UntouchedAllIff(reverse, n.others);
    NamesOfIs(n);
  }

  lemma NamesOfIs(n: Node)
    ensures NamesOf(n) == (if n.kind == OtherKind then {} else {n.name}) + NamesIn(n.content) + NamesIn(n.others)
  {
  }

  lemma ItemIff(s: Setup, reverse: Reverse, item: Node)
    requires Proper(reverse)
    ensures Unprefix(reverse, PrefixItem(s, item)) == item <==>
            NamesOf(item) !! reverse.Keys && Restores(s, reverse, SeenItem(item))
  {
    hide Unprefix, UnprefixAll, PrefixSlot, Restores, SeenSlot, SeenRefs, Proper, NamesIn, PrefixRefs;
    var m := PrefixItem(s, item);
    NodeIff(s, reverse, item);
    if item.kind == ToolResult {
      SlotIff(s, reverse, item);
      UnprefixName(reverse, m);
      UnprefixName(reverse, PrefixSlot(s, item));
      RefsIff(s, reverse, item.content);
      UntouchedAllIff(reverse, item.others);
      NamesOfIs(item);
      RestoresBoth(s, reverse, SeenSlot(item), SeenRefs(item.content));
    } else {
      assert SeenItem(item) == SeenSlot(item);
    }
  }

  lemma {:induction false} ItemsIff(s: Setup, reverse: Reverse, items: seq<Node>)
    requires Proper(reverse)
    ensures UnprefixAll(reverse, PrefixItems(s, items)) == items <==>
            NamesIn(items) !! reverse.Keys && Restores(s, reverse, SeenItems(items))
  {
    hide Unprefix, PrefixItem, Restores, SeenItem, Proper, NamesOf;
    if items == [] {
      NothingToRestore(s, reverse);
    } else {
      var rest := PrefixItems(s, items[1..]);
      ItemsIff(s, reverse, items[1..]);
      ItemIff(s, reverse, items[0]);
      UnprefixAllCons(reverse, PrefixItem(s, items[0]), rest);
      Cons(Unprefix(reverse, PrefixItem(s, items[0])), UnprefixAll(reverse, rest), items);
      SeenItemsCons(items);
      RestoresBoth(s, reverse, SeenItem(items[0]), SeenItems(items[1..]));
    }
  }

  lemma {:induction false} MessagesIff(s: Setup, reverse: Reverse, messages: seq<Node>)
    requires Proper(reverse)
    ensures UnprefixAll(reverse, PrefixMessages(s, messages)) == messages <==>
            NamesIn(messages) !! reverse.Keys && Restores(s, reverse, SeenMessages(messages))
  {
    hide Unprefix, PrefixItems, Restores, SeenItems, NamesOf;
    if messages == [] {
      NothingToRestore(s, reverse);
    } else {
      var rest := PrefixMessages(s, messages[1..]);
      var m := messages[0].(content := PrefixItems(s, messages[0].content));
      MessagesIff(s, reverse, messages[1..]);
      MessageIff(s, reverse, messages[0]);
      UnprefixAllCons(reverse, m, rest);
      Cons(Unprefix(reverse, m), UnprefixAll(reverse, rest), messages);
      SeenMessagesCons(messages);
      RestoresBoth(s, reverse, SeenItems(messages[0].content), SeenMessages(messages[1..]));
    }
  }

  lemma MessageIff(s: Setup, reverse: Reverse, message: Node)
    requires Proper(reverse)
    ensures Unprefix(reverse, message.(content := PrefixItems(s, message.content))) == message <==>
            NamesOf(message) !! reverse.Keys && Restores(s, reverse, SeenItems(message.content))
  {
    hide Unprefix, UnprefixAll, PrefixItems, Restores, SeenItems, NamesIn;
    UnprefixName(reverse, message.(content := PrefixItems(s, message.content)));
    ItemsIff(s, reverse, message.content);
    UntouchedAllIff(reverse, message.others);
    NamesOfIs(message);
  }

  // ---- The round trip, in terms of the request -----------------------------------------------

  /** Some renamed name seen gets this candidate. */
  ghost predicate Taken(s: Setup, seen: seq<Name>, k: Name)
  {
    exists y :: y in seen && Renamed(s, y) && Candidate(s, y) == k
  }

  /** A name is the first among the renamed names seen that have its normal form. */
  ghost predicate FirstOfForm(s: Setup, seen: seq<Name>, x: Name)
  {
    exists i :: 0 <= i < |seen| && seen[i] == x
                && forall j :: 0 <= j < i && Renamed(s, seen[j]) ==> TransformToolName(s, seen[j]) != TransformToolName(s, x)
  }

  lemma KeyIff(s: Setup, seen: seq<Name>, k: Name)
    ensures k in ReverseOf(s, seen) <==> Taken(s, seen, k)
  {
    hide Renamed, Candidate;
    ReverseSound(s, seen);
    ReverseComplete(s, seen);
  }

  lemma SameForm(s: Setup, x: Name, y: Name)
    ensures Candidate(s, x) == Candidate(s, y) <==> TransformToolName(s, x) == TransformToolName(s, y)
  {
    if Candidate(s, x) == Candidate(s, y) {
      SameTail(SHIM, TransformToolName(s, x), TransformToolName(s, y));
    }
  }

  lemma SameTail(pre: bytes, a: bytes, b: bytes)
    requires pre + a == pre + b
    ensures a == b
  {
    assert (pre + a)[|pre|..] == a && (pre + b)[|pre|..] == b;
  }

  lemma FirstIndex(s: Setup, seen: seq<Name>, x: Name) returns (i: nat)
    requires x in seen && Renamed(s, x)
    ensures i < |seen| && Renamed(s, seen[i]) && TransformToolName(s, seen[i]) == TransformToolName(s, x)
    ensures forall j :: 0 <= j < i && Renamed(s, seen[j]) ==> TransformToolName(s, seen[j]) != TransformToolName(s, x)
  {
    hide Renamed, TransformToolName;
    i := 0;
    while !(Renamed(s, seen[i]) && TransformToolName(s, seen[i]) == TransformToolName(s, x))
      invariant i < |seen| && exists k :: i <= k < |seen| && seen[k] == x
      invariant forall j :: 0 <= j < i && Renamed(s, seen[j]) ==> TransformToolName(s, seen[j]) != TransformToolName(s, x)
      decreases |seen| - i
    {
      i := i + 1;
    }
  }

  lemma OwnerIff(s: Setup, seen: seq<Name>, x: Name)
    requires x in seen && Renamed(s, x)
    ensures var reverse := ReverseOf(s, seen);
            (Candidate(s, x) in reverse && reverse[Candidate(s, x)] == x) <==> FirstOfForm(s, seen, x)
  {
    hide Renamed, Candidate, TransformToolName;
    var i := FirstIndex(s, seen, x);
    forall j | 0 <= j < i && Renamed(s, seen[j])
      ensures Candidate(s, seen[j]) != Candidate(s, seen[i])
    {
      SameForm(s, seen[j], seen[i]);
    }
    ReverseFirst(s, seen, i);
    SameForm(s, seen[i], x);
    if k :| 0 <= k < |seen| && seen[k] == x
            && forall j :: 0 <= j < k && Renamed(s, seen[j]) ==> TransformToolName(s, seen[j]) != TransformToolName(s, x) {
      assert !(i < k);
      assert !(k < i);
    }
  }

  lemma ReverseIsProper(s: Setup, seen: seq<Name>)
    ensures Proper(ReverseOf(s, seen))
  {
    ReverseSound(s, seen);
    forall k | k in ReverseOf(s, seen)
      ensures HasPrefix(k, SHIM) && !HasPrefix(ReverseOf(s, seen)[k], SHIM)
    {
      CandidateOfRenamed(s, ReverseOf(s, seen)[k]);
    }
  }

  /** The names seen in a request, in order. */
  function Seen(tools: seq<Tool>, messages: seq<Node>): seq<Name>
  {
    SeenTools(tools) + SeenMessages(messages)
  }

  /**
    * Unprefixing a prefixed request restores its messages in full if and only if every renamed name in them is the first of
    * its normal form in the request, and no name at any depth was already the candidate of a renamed one.
    */
  lemma RoundTripIff(s: Setup, tools: seq<Tool>, messages: seq<Node>)
    ensures var seen := Seen(tools, messages);
            UnprefixAll(ReverseOf(s, seen), PrefixMessages(s, messages)) == messages <==>
            && (forall x :: x in SeenMessages(messages) && Renamed(s, x) ==> FirstOfForm(s, seen, x))
            && (forall x :: x in NamesIn(messages) ==> !Taken(s, seen, x))
  {
    hide Renamed, Candidate, Taken, FirstOfForm, ReverseOf, SeenMessages, SeenTools, PrefixMessages, UnprefixAll, NamesIn, Proper;
    var seen := Seen(tools, messages);
    var reverse := ReverseOf(s, seen);
    ReverseIsProper(s, seen);
    MessagesIff(s, reverse, messages);
    forall x | x in SeenMessages(messages) && Renamed(s, x)
      ensures (Candidate(s, x) in reverse && reverse[Candidate(s, x)] == x) <==> FirstOfForm(s, seen, x)
    {
      OwnerIff(s, seen, x);
    }
    forall x
      ensures x in reverse <==> Taken(s, seen, x)
    {
      KeyIff(s, seen, x);
    }
  }

  /** Names are distinct once hyphenated and lower-cased. */
  ghost predicate DistinctForms(s: Setup, seen: seq<Name>)
  {
    forall x, y ::
      (x in seen && y in seen && Renamed(s, x) && Renamed(s, y) && TransformToolName(s, x) == TransformToolName(s, y))
      ==> x == y
  }

  /** With distinct normal forms and no prefixed name, unprefixing a prefixed request restores its messages in full. */
  lemma RoundTrip(s: Setup, tools: seq<Tool>, messages: seq<Node>)
    requires DistinctForms(s, Seen(tools, messages)) && forall x :: x in NamesIn(messages) ==> !HasPrefix(x, SHIM)
    ensures UnprefixAll(ReverseOf(s, Seen(tools, messages)), PrefixMessages(s, messages)) == messages
  {
    hide Renamed, Candidate, TransformToolName, ReverseOf, SeenMessages, SeenTools, PrefixMessages, UnprefixAll, NamesIn;
    var seen := Seen(tools, messages);
    forall x | x in SeenMessages(messages) && Renamed(s, x)
      ensures FirstOfForm(s, seen, x)
    {
      var i := FirstIndex(s, seen, x);
      assert seen[i] in seen && seen[i] == x;
    }
    forall x | x in NamesIn(messages)
      ensures !Taken(s, seen, x)
    {
      if y :| y in seen && Renamed(s, y) && Candidate(s, y) == x {
        CandidateOfRenamed(s, y);
      }
    }
    RoundTripIff(s, tools, messages);
  }

  lemma SeenPair(a: Name, b: Name)
    requires a != [] && b != []
    ensures SeenMessages([Node(OtherKind, [], [Node(ToolUse, a, [], []), Node(ToolUse, b, [], [])], [])]) == [a, b]
  {
    var x, y := Node(ToolUse, a, [], []), Node(ToolUse, b, [], []);
    var items := [x, y];
    var messages := [Node(OtherKind, [], items, [])];
    SeenItemsCons(items);
    assert items[1..] == [y];
    SeenItemsCons([y]);
    SeenMessagesCons(messages);
    assert SeenItem(x) == [a] && SeenItem(y) == [b];
    hide SeenItem;
    assert [y][1..] == [] && messages[1..] == [];
    assert SeenItems([]) == [] && SeenMessages([]) == [];
    assert SeenItems(items) == [a] + ([b] + []);
  }

  /** Without distinct forms it fails: two names that differ in `_` and `-` come back as one. */
  lemma SharedFormNotRestored(lower: Name -> Name)
    ensures var s := Setup(lower, {}, {});
            var a, b := Ascii("a_b"), Ascii("a-b");
            var messages := [Node(OtherKind, [], [Node(ToolUse, a, [], []), Node(ToolUse, b, [], [])], [])];
            UnprefixAll(ReverseOf(s, Seen([], messages)), PrefixMessages(s, messages)) != messages
  {
    var s := Setup(lower, {}, {});
    var a, b := Ascii("a_b"), Ascii("a-b");
    var messages := [Node(OtherKind, [], [Node(ToolUse, a, [], []), Node(ToolUse, b, [], [])], [])];
    SeenPair(a, b);
    hide SeenMessages, Unprefix, UnprefixAll, PrefixMessages, ReverseOf;
    var seen := Seen([], messages);
    assert seen == [] + [a, b] == [a, b];
    assert a[1] == UNDERSCORE && b[1] == HYPHEN;
    assert Hyphenate(a) == Hyphenate(b);
    assert Renamed(s, a) && Renamed(s, b) by {
      assert Eligible(s, a) && Eligible(s, b);
    }
    assert TransformToolName(s, a) == TransformToolName(s, b);
    hide Renamed, TransformToolName;
    RoundTripIff(s, [], messages);
    assert b in SeenMessages(messages) && !FirstOfForm(s, seen, b);
  }
}
