/** A configuration saved by the walk of conf_write, loaded by conf_read_simple and calculated again. */
module SaveAndLoad {
  import opened Tristate
  import opened Exprs
  import opened Options
  import opened Symbols
  import opened MenuTree
  import opened MenuWalk
  import opened ConfFile
  import opened Reload

  /** What conf_write asks about nodes and symbols: the title of the main menu, which menus and comments
      are visible, their texts, which symbols have SYMBOL_WRITE, and their values. */
  datatype Conf =
    Conf(main: string, visible: Menu -> bool, title: Menu -> string, writable: Sym -> bool, value: Sym -> Saved)

  function Remarks(lines: seq<string>): (items: seq<Item>)
    ensures |items| == |lines| && forall i | 0 <= i < |lines| :: items[i] == Remark(lines[i])
  {
    seq(|lines|, i requires 0 <= i < |lines| => Remark(lines[i]))
  }

  /** A text that is printed as it is, line by line. */
  function TextLines(text: string): seq<Item> {
    Remarks(ConfFile.Lines(text))
  }

  function Heading(title: string): seq<Item> {
    [Remark("\n"), Remark("#\n")] + TextLines("# " + title + "\n") + [Remark("#\n")]
  }

  function Ending(title: string): seq<Item> {
    TextLines("# end of " + title + "\n")
  }

  /** kconfig_print_comment: each line behind a hash sign. */
  function CommentLines(text: string): seq<Item> {
    var n := IndexOf(text, '\n');
    [Remark(if n == 0 then "#\n" else "# " + text[..n] + "\n")] + if n == |text| then [] else CommentLines(text[n + 1..])
  }

  const HEADING_SIZE := 255

  /** conf_write_heading, whose buffer cuts off what is too long. */
  function Opening(main: string): seq<Item> {
    var text := "\nAutomatically generated file; DO NOT EDIT.\n" + main + "\n";
    CommentLines(if |text| > HEADING_SIZE then text[..HEADING_SIZE] else text)
  }

  function EntryFor(s: Sym, c: Conf): Item {
    Entry(s.Name(), c.value(s))
  }

  /** What conf_write prints along the walk; newline is need_newline. */
  function Items(events: seq<Event>, c: Conf, written: set<Sym>, newline: bool): seq<Item> {
    if events == [] then []
    else
      var n, rest := events[0].node, events[1..];
      match events[0]
      case Enter(_) =>
        if n.sym.None? && c.visible(n) then Heading(c.title(n)) + Items(rest, c, written, false)
        else if Writes(n, c.writable) && n.sym.value !in written then
          (if newline then [Remark("\n")] else [])
          + [EntryFor(n.sym.value, c)] + Items(rest, c, written + {n.sym.value}, false)
        else Items(rest, c, written, newline)
      case Leave(_) =>
        if n.sym.None? && c.visible(n) then Ending(c.title(n)) + Items(rest, c, written, true)
        else Items(rest, c, written, newline)
  }

  /** The whole file. */
  function Printed(k: Forest, c: Conf): seq<Item> {
    Opening(c.main) + Items(Events(k), c, {}, false)
  }

  function Entered(events: seq<Event>): seq<Menu> {
    if events == [] then []
    else (if events[0].Enter? then [events[0].node] else []) + Entered(events[1..])
  }

  lemma Assoc<T>(a: seq<T>, b: seq<T>, c: seq<T>)
    ensures a + (b + c) == a + b + c
  {
  }

  lemma {:induction false} EnteredAppend(a: seq<Event>, b: seq<Event>)
    ensures Entered(a + b) == Entered(a) + Entered(b)
  {
    if a == [] {
      assert a + b == b;
    } else {
      assert (a + b)[1..] == a[1..] + b;
      EnteredAppend(a[1..], b);
      Assoc(if a[0].Enter? then [a[0].node] else [], Entered(a[1..]), Entered(b));
    }
  }

  /** The walk enters the nodes in preorder. */
  lemma {:induction false} EventsEnterPreorder(f: Forest)
    ensures Entered(Events(f)) == Pre(f)
  {
    if f.Cons? {
      var n, leave := f.node, if f.kids.Nil? then [] else [Leave(f.node)];
      EventsEnterPreorder(f.kids);
      EventsEnterPreorder(f.rest);
      EnteredAppend([Enter(n)] + Events(f.kids) + leave, Events(f.rest));
      EnteredAppend([Enter(n)] + Events(f.kids), leave);
      EnteredAppend([Enter(n)], Events(f.kids));
      EnteredOne(n);
    }
  }

  lemma EnteredOne(n: Menu)
    ensures Entered([Enter(n)]) == [n] && Entered([Leave(n)]) == [] && Entered([]) == []
  {
    assert [Enter(n)][1..] == [] && [Leave(n)][1..] == [];
  }

  function EntriesOf(items: seq<Item>): seq<Item> {
    if items == [] then []
    else (if items[0].Entry? then [items[0]] else []) + EntriesOf(items[1..])
  }

  lemma {:induction false} EntriesAppend(a: seq<Item>, b: seq<Item>)
    ensures EntriesOf(a + b) == EntriesOf(a) + EntriesOf(b)
  {
    if a == [] {
      assert a + b == b;
    } else {
      assert (a + b)[1..] == a[1..] + b;
      EntriesAppend(a[1..], b);
      Assoc(if a[0].Entry? then [a[0]] else [], EntriesOf(a[1..]), EntriesOf(b));
    }
  }

  lemma {:induction false} RemarksHaveNoEntries(items: seq<Item>)
    requires forall item | item in items :: item.Remark?
    ensures EntriesOf(items) == []
  {
    if items != [] {
      assert items[0] in items;
      RemarksHaveNoEntries(items[1..]);
    }
  }

  function EntriesFor(syms: seq<Sym>, c: Conf): (items: seq<Item>)
    ensures |items| == |syms| && forall i | 0 <= i < |syms| :: items[i] == EntryFor(syms[i], c)
  {
    seq(|syms|, i requires 0 <= i < |syms| => EntryFor(syms[i], c))
  }

  lemma LinesCons(n: Menu, nodes: seq<Menu>, writable: Sym -> bool, written: set<Sym>)
    ensures MenuWalk.Lines([n] + nodes, writable, written) ==
      if Writes(n, writable) && n.sym.value !in written then
        [n.sym.value] + MenuWalk.Lines(nodes, writable, written + {n.sym.value})
      else MenuWalk.Lines(nodes, writable, written)
  {
    assert ([n] + nodes)[1..] == nodes;
  }

  lemma EntriesForCons(s: Sym, syms: seq<Sym>, c: Conf)
    ensures EntriesFor([s] + syms, c) == [EntryFor(s, c)] + EntriesFor(syms, c)
  {
  }

  lemma EntriesBehindRemarks(remarks: seq<Item>, more: seq<Item>)
    requires forall item | item in remarks :: item.Remark?
    ensures EntriesOf(remarks + more) == EntriesOf(more)
  {
    RemarksHaveNoEntries(remarks);
    EntriesAppend(remarks, more);
    assert [] + EntriesOf(more) == EntriesOf(more);
  }

  lemma EntriesBehindEntry(blank: seq<Item>, item: Item, more: seq<Item>)
    requires item.Entry? && forall b | b in blank :: b.Remark?
    ensures EntriesOf(blank + [item] + more) == [item] + EntriesOf(more)
  {
    Assoc(blank, [item], more);
    EntriesBehindRemarks(blank, [item] + more);
    assert ([item] + more)[1..] == more;
  }

  /** The symbol lines among all that is printed are one for each symbol of the walk. */
  lemma {:induction false} PrintedEntries(events: seq<Event>, c: Conf, written: set<Sym>, newline: bool)
    ensures EntriesOf(Items(events, c, written, newline)) == EntriesFor(MenuWalk.Lines(Entered(events), c.writable, written), c)
  {
    if events != [] {
      var n, rest := events[0].node, events[1..];
      LinesCons(n, Entered(rest), c.writable, written);
      assert [] + Entered(rest) == Entered(rest);
      if n.sym.None? && c.visible(n) {
        var remarks := if events[0].Enter? then Heading(c.title(n)) else Ending(c.title(n));
        PrintedEntries(rest, c, written, events[0].Leave?);
        EntriesBehindRemarks(remarks, Items(rest, c, written, events[0].Leave?));
      } else if events[0].Enter? && Writes(n, c.writable) && n.sym.value !in written {
        var s := n.sym.value;
        PrintedEntries(rest, c, written + {s}, false);
        EntriesBehindEntry(if newline then [Remark("\n")] else [], EntryFor(s, c), Items(rest, c, written + {s}, false));
        EntriesForCons(s, MenuWalk.Lines(Entered(rest), c.writable, written + {s}), c);
      } else {
        PrintedEntries(rest, c, written, newline);
      }
    }
  }

  lemma {:induction false} EntriesAreItems(items: seq<Item>)
    ensures forall item :: item in EntriesOf(items) <==> item in items && item.Entry?
  {
    if items != [] {
      EntriesAreItems(items[1..]);
      assert forall x :: x in items <==> x == items[0] || x in items[1..];
    }
  }

  /** Where an entry stands among the entries. */
  lemma EntryPlace(items: seq<Item>, i: nat)
    requires i < |items| && items[i].Entry?
    ensures |EntriesOf(items[..i])| < |EntriesOf(items)|
    ensures EntriesOf(items)[|EntriesOf(items[..i])|] == items[i]
  {
    assert items == items[..i] + items[i..];
    EntriesAppend(items[..i], items[i..]);
  }

  lemma EntriesKeepOrder(items: seq<Item>)
    requires NamesDiffer(EntriesOf(items))
    ensures NamesDiffer(items)
  {
    forall i, j | 0 <= i < j < |items| && items[i].Entry? && items[j].Entry?
      ensures items[i].name != items[j].name
    {
      EntryPlace(items, i);
      EntryPlace(items, j);
      EntryPlace(items[..j], i);
      assert items[..j][..i] == items[..i];
    }
  }

  lemma OneLineMore(text: string, n: nat)
    requires n < |text| && n == IndexOf(text, '\n')
    ensures IsLine(text[..n + 1])
    ensures ConfFile.Lines(text) == [text[..n + 1]] + ConfFile.Lines(text[n + 1..]) && text[..n + 1] + text[n + 1..] == text
  {
    CutAt(text, n + 1);
    FirstNewline(text, n);
  }

  lemma FirstNewline(text: string, n: nat)
    requires n < |text| && n == IndexOf(text, '\n')
    ensures IsLine(text[..n + 1])
  {
    IndexIs(text[..n + 1], '\n', n);
  }

  lemma CutAt<T>(s: seq<T>, n: nat)
    requires n <= |s|
    ensures s[..n] + s[n..] == s
  {
  }

  /** The lines of a text that ends with a newline are lines, and nothing of the text is lost. */
  lemma {:induction false} LinesAreText(text: string)
    requires text != "" ==> text[|text| - 1] == '\n'
    ensures (forall line | line in ConfFile.Lines(text) :: IsLine(line)) && TextOf(TextLines(text)) == text
    decreases |text|
  {
    if text != "" {
      var n := IndexOf(text, '\n');
      OneLineMore(text, n);
      LinesAreText(text[n + 1..]);
      TextOfCons(text[..n + 1], ConfFile.Lines(text[n + 1..]));
    } else {
      assert TextLines(text) == [];
    }
  }

  /** The characters of lines that are no symbol's own. */
  function TextOf(items: seq<Item>): string {
    if items == [] then ""
    else (if items[0].Remark? then items[0].line else "") + TextOf(items[1..])
  }

  lemma TextOfCons(line: string, lines: seq<string>)
    ensures TextOf(Remarks([line] + lines)) == line + TextOf(Remarks(lines))
  {
    assert Remarks([line] + lines)[1..] == Remarks(lines);
  }

  lemma {:induction false} TextOfAppend(a: seq<Item>, b: seq<Item>)
    ensures TextOf(a + b) == TextOf(a) + TextOf(b)
  {
    if a == [] {
      assert a + b == b;
    } else {
      assert (a + b)[1..] == a[1..] + b;
      TextOfAppend(a[1..], b);
      Assoc(if a[0].Remark? then a[0].line else "", TextOf(a[1..]), TextOf(b));
    }
  }

  lemma TextOfOne(line: string)
    ensures TextOf([Remark(line)]) == line
  {
    assert [Remark(line)][1..] == [] && line + "" == line;
  }

  lemma TextOfTwo(a: string, b: string)
    ensures TextOf([Remark(a), Remark(b)]) == a + b
  {
    assert [Remark(a), Remark(b)][1..] == [Remark(b)];
    TextOfOne(b);
  }

  /** What is printed for a menu, as characters. */
  lemma HeadingText(title: string)
    ensures TextOf(Heading(title)) == "\n" + "#\n" + ("# " + title + "\n") + "#\n"
    ensures TextOf(Ending(title)) == "# end of " + title + "\n"
  {
    var text := "# " + title + "\n";
    LinesAreText(text);
    LinesAreText("# end of " + title + "\n");
    TextOfAppend([Remark("\n"), Remark("#\n")] + TextLines(text), [Remark("#\n")]);
    TextOfAppend([Remark("\n"), Remark("#\n")], TextLines(text));
    TextOfTwo("\n", "#\n");
    TextOfOne("#\n");
  }

  predicate AreLines(items: seq<Item>) {
    forall item | item in items :: item.Remark? && IsLine(item.line)
  }

  lemma TextLinesAreLines(text: string)
    requires text != "" && text[|text| - 1] == '\n'
    ensures AreLines(TextLines(text))
  {
    LinesAreText(text);
    forall item | item in TextLines(text)
      ensures item.Remark? && IsLine(item.line)
    {
      var i :| 0 <= i < |TextLines(text)| && TextLines(text)[i] == item;
      assert ConfFile.Lines(text)[i] in ConfFile.Lines(text);
    }
  }

  lemma BlanksAreLines()
    ensures IsLine("\n") && IsLine("#\n")
  {
    EndsLine("#");
    assert "#" + "\n" == "#\n";
  }

  lemma MenuLines(title: string)
    ensures AreLines(Heading(title)) && AreLines(Ending(title))
  {
    BlanksAreLines();
    TextLinesAreLines("# " + title + "\n");
    TextLinesAreLines("# end of " + title + "\n");
  }

  lemma {:induction false} CommentsAreLines(text: string)
    ensures AreLines(CommentLines(text))
    decreases |text|
  {
    var n := IndexOf(text, '\n');
    BlanksAreLines();
    EndsLine("# " + text[..n]);
    if n < |text| {
      CommentsAreLines(text[n + 1..]);
    }
  }

  lemma {:induction false} ItemsArePlain(events: seq<Event>, c: Conf, written: set<Sym>, newline: bool, types: Types)
    requires forall e | e in events && Writes(e.node, c.writable) :: PlainItem(types, EntryFor(e.node.sym.value, c))
    ensures forall item | item in Items(events, c, written, newline) :: PlainItem(types, item)
  {
    if events != [] {
      var e, rest := events[0], events[1..];
      var n := e.node;
      BlanksAreLines();
      if n.sym.None? && c.visible(n) {
        MenuLines(c.title(n));
        ItemsArePlain(rest, c, written, e.Leave?, types);
      } else if e.Enter? && Writes(n, c.writable) && n.sym.value !in written {
        ItemsArePlain(rest, c, written + {n.sym.value}, false, types);
      } else {
        ItemsArePlain(rest, c, written, newline, types);
      }
    }
  }

  /** The symbols of which some node calls for a line. */
  ghost predicate Saves(nodes: seq<Menu>, writable: Sym -> bool, s: Sym) {
    exists n :: n in nodes && Writes(n, writable) && n.sym.value == s
  }

  /** A configuration that the file format can hold: valid values, and names that tell the symbols
      apart. */
  ghost predicate Storable(nodes: seq<Menu>, c: Conf, prefix: string, types: Types) {
    && PlainPrefix(prefix)
    && (forall s | Saves(nodes, c.writable, s) :: PlainItem(types, EntryFor(s, c)))
    && (forall s, t | Saves(nodes, c.writable, s) && Saves(nodes, c.writable, t) && s.Name() == t.Name() :: s == t)
  }

  lemma {:induction false} EventsAreNodes(f: Forest)
    ensures forall e | e in Events(f) :: e.node in Pre(f)
  {
    if f.Cons? {
      EventsAreNodes(f.kids);
      EventsAreNodes(f.rest);
    }
  }

  lemma WalkedSymbols(nodes: seq<Menu>, c: Conf)
    requires forall s, t | Saves(nodes, c.writable, s) && Saves(nodes, c.writable, t) && s.Name() == t.Name() :: s == t
    ensures var es := EntriesFor(MenuWalk.Lines(nodes, c.writable, {}), c);
      && NamesDiffer(es)
      && (forall item :: item in es <==> exists s :: Saves(nodes, c.writable, s) && item == EntryFor(s, c))
  {
    var syms := MenuWalk.Lines(nodes, c.writable, {});
    var es := EntriesFor(syms, c);
    LinesOnce(nodes, c.writable, {});
    assert forall s :: s in syms <==> Saves(nodes, c.writable, s);
    forall i, j | 0 <= i < j < |es|
      ensures es[i].name != es[j].name
    {
      assert syms[i] in syms && syms[j] in syms;
    }
    forall item
      ensures item in es <==> exists s :: Saves(nodes, c.writable, s) && item == EntryFor(s, c)
    {
      if item in es {
        var i :| 0 <= i < |es| && es[i] == item;
        assert syms[i] in syms;
      }
      if s :| Saves(nodes, c.writable, s) && item == EntryFor(s, c) {
        var i :| 0 <= i < |syms| && syms[i] == s;
        assert es[i] == item;
      }
    }
  }

  lemma PrintedArePlain(k: Forest, c: Conf, prefix: string, types: Types)
    requires Storable(Pre(k), c, prefix, types)
    ensures forall item | item in Printed(k, c) :: PlainItem(types, item)
  {
    EventsAreNodes(k);
    forall e | e in Events(k) && Writes(e.node, c.writable)
      ensures PlainItem(types, EntryFor(e.node.sym.value, c))
    {
      assert Saves(Pre(k), c.writable, e.node.sym.value);
    }
    ItemsArePlain(Events(k), c, {}, false, types);
    OpeningIsLines(c.main);
  }

  lemma OpeningIsLines(main: string)
    ensures AreLines(Opening(main))
  {
    var text := "\nAutomatically generated file; DO NOT EDIT.\n" + main + "\n";
    CommentsAreLines(if |text| > HEADING_SIZE then text[..HEADING_SIZE] else text);
  }

  /** What is printed for a storable configuration: its symbol lines carry different names, and are
      those of the symbols to be saved. */
  lemma PrintedItems(k: Forest, c: Conf, prefix: string, types: Types)
    requires Storable(Pre(k), c, prefix, types)
    ensures NamesDiffer(Printed(k, c))
    ensures forall item :: item in Printed(k, c) && item.Entry?
              <==> exists s :: Saves(Pre(k), c.writable, s) && item == EntryFor(s, c)
  {
    EventsEnterPreorder(k);
    PrintedEntries(Events(k), c, {}, false);
    WalkedSymbols(Pre(k), c);
    OpeningIsLines(c.main);
    RemarksHaveNoEntries(Opening(c.main));
    EntriesAppend(Opening(c.main), Items(Events(k), c, {}, false));
    EntriesKeepOrder(Printed(k, c));
    EntriesAreItems(Printed(k, c));
  }

  /** Every symbol that was to be saved has its value back, and nothing else has a value. */
  ghost predicate Loaded(got: Defs, nodes: seq<Menu>, c: Conf) {
    && (forall s | Saves(nodes, c.writable, s) :: s.Name() in got && got[s.Name()] == c.value(s))
    && (forall name | name in got :: exists s :: Saves(nodes, c.writable, s) && s.Name() == name)
  }

  lemma LoadedIsRestored(k: Forest, c: Conf, prefix: string, types: Types, got: Defs)
    requires Storable(Pre(k), c, prefix, types)
    ensures Loaded(got, Pre(k), c) <==> Restored(got, Printed(k, c))
  {
    var items := Printed(k, c);
    PrintedItems(k, c, prefix, types);
    if Restored(got, items) {
      forall s | Saves(Pre(k), c.writable, s)
        ensures s.Name() in got && got[s.Name()] == c.value(s)
      {
        assert EntryFor(s, c) in items;
      }
      forall name | name in got
        ensures exists s :: Saves(Pre(k), c.writable, s) && s.Name() == name
      {
        var item :| item in items && item.Entry? && item.name == name;
        var s :| Saves(Pre(k), c.writable, s) && item == EntryFor(s, c);
      }
    }
    if Loaded(got, Pre(k), c) {
      forall name | name in got
        ensures exists item :: item in items && item.Entry? && item.name == name
      {
        var s :| Saves(Pre(k), c.writable, s) && s.Name() == name;
        assert EntryFor(s, c) in items;
      }
    }
  }

  /** Whatever the shape of the menu tree, however often a symbol occurs in it, and whatever the texts of
      its menus: after loading, every symbol that was to be saved has its value back, and nothing else
      has a value, exactly when the other lines of the file are harmless. */
  lemma SaveAndLoad(k: Forest, c: Conf, prefix: string, types: Types)
    requires Storable(Pre(k), c, prefix, types)
    ensures forall item | item in Printed(k, c) :: PlainItem(types, item)
    ensures Loaded(ReadFile(prefix, types, ConfFile.Written(prefix, types, Printed(k, c))), Pre(k), c)
            <==> AllHarmless(prefix, types, Printed(k, c))
  {
    var items := Printed(k, c);
    PrintedArePlain(k, c, prefix, types);
    PrintedItems(k, c, prefix, types);
    FileRoundTrip(prefix, types, map[], items);
    SaidExactly(prefix, types, items);
    LoadedIsRestored(k, c, prefix, types, Said(prefix, types, map[], items));
  }

  lemma OneTextLine(body: string)
    requires '\n' !in body
    ensures TextLines(body + "\n") == [Remark(body + "\n")]
  {
    EndsLine(body);
    FirstLine(body + "\n", "");
    assert body + "\n" + "" == body + "\n" && ConfFile.Lines("") == [];
  }

  lemma OneLineHeading(title: string)
    requires '\n' !in title
    ensures Heading(title) == [Remark("\n"), Remark("#\n"), Remark("# " + title + "\n"), Remark("#\n")]
  {
    OneTextLine("# " + title);
    FourInRow(Remark("\n"), Remark("#\n"), Remark("# " + title + "\n"), Remark("#\n"));
  }

  lemma UnsetLineSays(prefix: string, types: Types, name: string)
    requires PlainName(name) && name in types && IsTri(types[name])
    ensures LineSays(prefix, types, UnsetLine(prefix, name)) == Some((name, SavedTri(NO)))
  {
    UnsetRoundTrip(prefix, name);
  }

  /** A menu whose text is the line of an unset symbol without its hash sign. */
  lemma TitleCanUnset(prefix: string, types: Types, name: string)
    requires PlainPrefix(prefix) && PlainName(name) && name in types && IsTri(types[name])
    ensures var line := "# " + (prefix + name + " is not set") + "\n";
      && Heading(prefix + name + " is not set") == [Remark("\n"), Remark("#\n"), Remark(line), Remark("#\n")]
      && LineSays(prefix, types, line) == Some((name, SavedTri(NO)))
  {
    OneLineHeading(prefix + name + " is not set");
    UnsetLineSays(prefix, types, name);
    TitleIsUnsetLine(prefix, name);
  }

  lemma FourInRow<T>(a: T, b: T, c: T, d: T)
    ensures [a, b] + [c] + [d] == [a, b, c, d]
  {
  }

  lemma TitleIsUnsetLine(prefix: string, name: string)
    ensures "# " + (prefix + name + " is not set") + "\n" == UnsetLine(prefix, name)
  {
  }

  const A := Sym.Config("A", Boolean)
  const UNSET_A := "CONFIG_A is not set"

  /** A configuration with a bool A that is y, followed by a visible menu of such a text. */
  ghost predicate MenuAfterA(k: Forest, a: Menu, menu: Menu, c: Conf) {
    && k == Cons(a, Nil, Cons(menu, Nil, Nil))
    && a.sym == Some(A) && !a.isChoice && c.writable(A) && c.value(A) == SavedTri(YES)
    && menu.sym == None && c.visible(menu) && c.title(menu) == UNSET_A
  }

  lemma PrintedMenuAfterA(k: Forest, a: Menu, menu: Menu, c: Conf)
    requires MenuAfterA(k, a, menu, c)
    ensures Printed(k, c) == Opening(c.main) + ([Entry("A", SavedTri(YES))] + Heading(UNSET_A))
  {
    var rest := Cons(menu, Nil, Nil);
    assert Events(Nil) == [] && Events(rest) == [Enter(menu)] && Events(k) == [Enter(a), Enter(menu)];
    var events := Events(k);
    assert events[1..] == [Enter(menu)] && [Enter(menu)][1..] == [];
    assert Items([Enter(menu)], c, {A}, false) == Heading(UNSET_A) + [] == Heading(UNSET_A);
    assert EntryFor(A, c) == Entry("A", SavedTri(YES));
    assert {} + {A} == {A};
    assert Items(events, c, {}, false) == [] + [EntryFor(A, c)] + Items([Enter(menu)], c, {A}, false);
    assert Items(events, c, {}, false) == [] + [Entry("A", SavedTri(YES))] + Heading(UNSET_A);
  }

  const TYPES_A: Types := map["A" := Boolean]

  lemma AIsStorable(k: Forest, a: Menu, menu: Menu, c: Conf)
    requires MenuAfterA(k, a, menu, c)
    ensures Storable(Pre(k), c, "CONFIG_", TYPES_A)
  {
    assert Pre(k) == [a, menu];
    assert forall s | Saves(Pre(k), c.writable, s) :: s == A;
    assert PlainItem(TYPES_A, EntryFor(A, c));
  }

  lemma UnsetAIsTitle()
    ensures "CONFIG_" + "A" + " is not set" == UNSET_A
    ensures PlainPrefix("CONFIG_") && "CONFIG_" != "" && PlainName("A") && "A" in TYPES_A && IsTri(TYPES_A["A"])
  {
  }

  lemma FileSaysUnset(k: Forest, a: Menu, menu: Menu, c: Conf)
    requires MenuAfterA(k, a, menu, c)
    ensures var got := Said("CONFIG_", TYPES_A, map[], Printed(k, c)); "A" in got && got["A"] == SavedTri(NO)
  {
    var own := [Entry("A", SavedTri(YES))];
    PrintedMenuAfterA(k, a, menu, c);
    UnsetAIsTitle();
    LastIsTitle("CONFIG_", TYPES_A, Opening(c.main) + own, "A");
    Assoc(Opening(c.main), own, Heading(UNSET_A));
  }

  /** Its file is read back with A as n. */
  lemma TitleUnsetsSymbol(k: Forest, a: Menu, menu: Menu, c: Conf)
    requires MenuAfterA(k, a, menu, c)
    ensures Storable(Pre(k), c, "CONFIG_", TYPES_A) && (forall item | item in Printed(k, c) :: PlainItem(TYPES_A, item))
    ensures var got := ReadFile("CONFIG_", TYPES_A, ConfFile.Written("CONFIG_", TYPES_A, Printed(k, c)));
      "A" in got && got["A"] == SavedTri(NO)
  {
    AIsStorable(k, a, menu, c);
    PrintedArePlain(k, c, "CONFIG_", TYPES_A);
    FileRoundTrip("CONFIG_", TYPES_A, map[], Printed(k, c));
    FileSaysUnset(k, a, menu, c);
  }

  lemma LastIsTitle(prefix: string, types: Types, items: seq<Item>, name: string)
    requires PlainPrefix(prefix) && prefix != "" && PlainName(name) && name in types && IsTri(types[name])
    ensures var got := Said(prefix, types, map[], items + Heading(prefix + name + " is not set"));
      name in got && got[name] == SavedTri(NO)
  {
    TitleCanUnset(prefix, types, name);
    var heading := Heading(prefix + name + " is not set");
    var all := items + heading;
    var i := LastDecides(prefix, types, map[], all, name);
    assert all[|items| + 2] == heading[2] && all[|items| + 3] == heading[3];
    assert About(prefix, types, all[|items| + 2], name);
    assert "#\n"[2..] == "" && !About(prefix, types, heading[3], name);
    assert i == |items| + 2;
  }

  function SavedValue(s: Sym, v: SymVal): Saved {
    if s.IsTristateLike() then SavedTri(v.tri) else SavedText(v.val)
  }

  /** The user values after loading. */
  function UserValuesOf(g: Graph, got: Defs): UserValues {
    map s | s in g && s.Name() in got ::
      match got[s.Name()] case SavedTri(t) => SymVal("", t) case SavedText(text) => SymVal(text, NO)
  }

  /** The configuration as calculated. */
  ghost predicate IsCalculated(c: Conf, g: Graph, modules: bool, user: UserValues, rank: Sym -> nat) {
    forall s | s in g :: var st := Spec(g, modules, user, rank, s); c.writable(s) == st.write && c.value(s) == SavedValue(s, st.curr)
  }

  /** Saving, loading and calculating again: if every visible symbol has a node, every symbol has the
      value it had, exactly when no saved symbol stood above its prompt. */
  lemma SaveLoadCalculate(k: Forest, c: Conf, prefix: string, types: Types,
                          g: Graph, modules: bool, user: UserValues, rank: Sym -> nat)
    requires Storable(Pre(k), c, prefix, types) && AllHarmless(prefix, types, Printed(k, c))
    requires Ranked(g, rank) && IsCalculated(c, g, modules, user, rank)
    requires forall s | s in g && Spec(g, modules, user, rank, s).visible != NO ::
      exists n :: n in Pre(k) && n.sym == Some(s) && !n.isChoice
    ensures (forall item | item in Printed(k, c) :: PlainItem(types, item))
      && var loaded := UserValuesOf(g, ReadFile(prefix, types, ConfFile.Written(prefix, types, Printed(k, c))));
      ((forall s :: SameValue(g, modules, user, rank, loaded, s)) <==> NoneAbovePrompt(g, modules, user, rank, loaded))
  {
    SaveAndLoad(k, c, prefix, types);
    var loaded := UserValuesOf(g, ReadFile(prefix, types, ConfFile.Written(prefix, types, Printed(k, c))));
    forall s | s in g && Spec(g, modules, user, rank, s).visible != NO
      ensures TakesOver(s, UserValue(user, s), Spec(g, modules, user, rank, s).curr, UserValue(loaded, s))
    {
      assert Spec(g, modules, user, rank, s).write;
      assert Saves(Pre(k), c.writable, s);
    }
    ReloadKeepsValues(g, modules, user, rank, loaded);
  }
}
