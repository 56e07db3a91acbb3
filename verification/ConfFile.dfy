/** The configuration file of scripts/config/confdata.c: the line that is written for a symbol, and
    the reader that takes a file apart line by line. */
module ConfFile {
  import opened Tristate
  import opened Exprs
  import opened Options
  import opened ConfStrings

  /** The user's value of a symbol, def[S_DEF_USER], where SYMBOL_DEF_USER is set. */
  datatype Saved = SavedTri(tri: Tri) | SavedText(text: string)

  type Types = map<string, SymType>
  type Defs = map<string, Saved>

  predicate IsTri(t: SymType) {
    t == Boolean || t == SymType.Tristate
  }

  function IndexOf(s: string, c: char): (i: nat)
    ensures i <= |s| && (i < |s| ==> s[i] == c) && forall j | 0 <= j < i :: s[j] != c
  {
    if s == "" || s[0] == c then 0 else 1 + IndexOf(s[1..], c)
  }

  lemma {:induction false} IndexIs(s: string, c: char, i: nat)
    requires i < |s| && s[i] == c && forall j | 0 <= j < i :: s[j] != c
    ensures IndexOf(s, c) == i
  {
    if i > 0 {
      assert forall j | 0 <= j < i - 1 :: s[1..][j] == s[j + 1];
      IndexIs(s[1..], c, i - 1);
    }
  }

  // ---- Writing --------------------------------------------------------------------------------

  function TriText(t: Tri): string {
    if t == NO then "n" else if t == MOD then "m" else "y"
  }

  /** The text of a value, a string in quotes. */
  function ValueText(typ: SymType, v: Saved): string {
    match v
    case SavedTri(t) => TriText(t)
    case SavedText(s) => if typ == Str then "\"" + Escaped(s) + "\"" else s
  }

  function UnsetLine(prefix: string, name: string): string {
    "# " + prefix + name + " is not set\n"
  }

  function SetLine(prefix: string, name: string, text: string): string {
    prefix + name + "=" + (text + "\n")
  }

  /** kconfig_print_symbol. */
  function PrintSymbol(prefix: string, name: string, typ: SymType, v: Saved): string {
    var text := ValueText(typ, v);
    if IsTri(typ) && text != "" && text[0] == 'n' then UnsetLine(prefix, name)
    else SetLine(prefix, name, text)
  }

  // ---- Reading --------------------------------------------------------------------------------

  predicate IsDigit(c: char) {
    '0' <= c <= '9'
  }

  predicate IsHexDigit(c: char) {
    IsDigit(c) || 'a' <= c <= 'f' || 'A' <= c <= 'F'
  }

  /** sym_string_valid. */
  predicate StringValid(typ: SymType, s: string) {
    if typ == Str then true
    else if typ == Int then
      var d := if s != "" && s[0] == '-' then s[1..] else s;
      d != "" && (d[0] == '0' ==> |d| == 1) && forall c | c in d :: IsDigit(c)
    else if typ == Hex then
      var d := if |s| >= 2 && s[0] == '0' && (s[1] == 'x' || s[1] == 'X') then s[2..] else s;
      d != "" && forall c | c in d :: IsHexDigit(c)
    else IsTri(typ) && s != "" && s[0] in "yYmMnN"
  }

  /** conf_set_sym_val: the value that a text gives to a symbol of a type, if it is one. */
  function ParseValue(typ: SymType, p: string): Option<Saved> {
    if typ == SymType.Tristate && p != "" && p[0] == 'm' then Some(SavedTri(MOD))
    else if IsTri(typ) then
      if p != "" && p[0] == 'y' then Some(SavedTri(YES))
      else if p != "" && p[0] == 'n' then Some(SavedTri(NO))
      else None
    else if typ == Str then
      if p == "" || p[0] != '"' then None
      else
        match Unescaped(p[1..])
        case None => None
        case Some(s) => Some(SavedText(s))
    else if (typ == Int || typ == Hex) && StringValid(typ, p) then Some(SavedText(p))
    else None
  }

  /** A line without its end. */
  function Chomp(s: string): string {
    var n := IndexOf(s, '\n');
    var t := s[..n];
    if n < |s| && t != "" && t[n - 1] == '\r' then t[..n - 1] else t
  }

  /** "# CONFIG_name is not set": the name, if a line has this form. */
  function UnsetName(prefix: string, line: string): Option<string> {
    if |line| < 2 || !(prefix <= line[2..]) then None
    else
      var p := line[2..][|prefix|..];
      var i := IndexOf(p, ' ');
      if i < |p| && "is not set" <= p[i + 1..] then Some(p[..i]) else None
  }

  function Store(defs: Defs, name: string, v: Option<Saved>): Defs {
    if v.Some? then defs[name := v.value] else defs
  }

  function ReadUnset(prefix: string, types: Types, defs: Defs, line: string): Defs {
    var name := UnsetName(prefix, line);
    if name.Some? && name.value in types && IsTri(types[name.value]) then defs[name.value := SavedTri(NO)] else defs
  }

  function ReadSet(prefix: string, types: Types, defs: Defs, line: string): Defs
    requires prefix <= line
  {
    ReadAssignment(types, defs, line[|prefix|..])
  }

  /** Name, equals sign and value. */
  function ReadAssignment(types: Types, defs: Defs, p: string): Defs {
    var i := IndexOf(p, '=');
    if i < |p| && p[..i] in types then Store(defs, p[..i], ParseValue(types[p[..i]], Chomp(p[i + 1..]))) else defs
  }

  /** One line of conf_read_simple. */
  function ReadLine(prefix: string, types: Types, defs: Defs, line: string): Defs {
    if line != "" && line[0] == '#' then ReadUnset(prefix, types, defs, line)
    else if prefix <= line then ReadSet(prefix, types, defs, line)
    else defs
  }

  function ReadLines(prefix: string, types: Types, defs: Defs, lines: seq<string>): Defs
    decreases lines
  {
    if lines == [] then defs else ReadLines(prefix, types, ReadLine(prefix, types, defs, lines[0]), lines[1..])
  }

  /** The lines of a file, each with its newline; the last may have none. */
  function Lines(content: string): seq<string> {
    if content == "" then []
    else
      var n := IndexOf(content, '\n');
      if n == |content| then [content] else [content[..n + 1]] + Lines(content[n + 1..])
  }

  function ReadFile(prefix: string, types: Types, content: string): Defs {
    ReadLines(prefix, types, map[], Lines(content))
  }

  // ---- The round trip -------------------------------------------------------------------------

  predicate PlainPrefix(prefix: string) {
    '\n' !in prefix && (prefix == "" || prefix[0] != '#')
  }

  predicate PlainName(name: string) {
    forall c | c in name :: c != ' ' && c != '=' && c != '\n' && c != '#'
  }

  /** A value a symbol of the type can have. */
  predicate ValidValue(typ: SymType, v: Saved) {
    match typ
    case Boolean => v.SavedTri? && v.tri != MOD
    case Tristate => v.SavedTri?
    case Str => v.SavedText? && '\n' !in v.text
    case Unknown => false
    case _ => v.SavedText? && StringValid(typ, v.text)
  }

  lemma IndexAfter(name: string, c: char, rest: string)
    requires c !in name
    ensures IndexOf(name + [c] + rest, c) == |name|
  {
    var s := name + [c] + rest;
    forall j | 0 <= j < |name|
      ensures s[j] != c
    {
      assert s[j] == name[j] && name[j] in name;
    }
    IndexIs(s, c, |name|);
  }

  lemma {:induction false} EscapedHasNoNewline(s: string)
    requires '\n' !in s
    ensures '\n' !in Escaped(s)
  {
    if s != "" {
      assert s[0] in s && forall c | c in s[1..] :: c in s;
      EscapedHasNoNewline(s[1..]);
    }
  }

  lemma ValueHasNoLineEnd(typ: SymType, v: Saved)
    requires ValidValue(typ, v)
    ensures var t := ValueText(typ, v); '\n' !in t && t != "" && t[|t| - 1] != '\r'
  {
    var t := ValueText(typ, v);
    if typ == Str {
      EscapedHasNoNewline(v.text);
    } else if typ == Int {
      DigitsEnd(t, if t != "" && t[0] == '-' then 1 else 0);
    } else if typ == Hex {
      DigitsEnd(t, if |t| >= 2 && t[0] == '0' && (t[1] == 'x' || t[1] == 'X') then 2 else 0);
    }
  }

  lemma DigitsEnd(t: string, from: nat)
    requires from < |t| && '\n' !in t[..from] && forall c | c in t[from..] :: IsHexDigit(c)
    ensures '\n' !in t && t[|t| - 1] != '\r'
  {
    forall i | 0 <= i < |t|
      ensures t[i] != '\n' && (i >= from ==> t[i] != '\r')
    {
      if i < from {
        assert t[..from][i] == t[i] && t[..from][i] in t[..from];
      } else {
        assert t[from..][i - from] == t[i] && t[from..][i - from] in t[from..];
      }
    }
  }

  /** Reading the text of a value gives the value. */
  lemma ValueRoundTrip(typ: SymType, v: Saved)
    requires ValidValue(typ, v)
    ensures ParseValue(typ, ValueText(typ, v)) == Some(v)
  {
    if typ == Str {
      StringRoundTrip(v.text);
    }
  }

  lemma StringRoundTrip(s: string)
    ensures var t := "\"" + Escaped(s) + "\""; t[0] == '"' && Unescaped(t[1..]) == Some(s)
  {
    EscapeRoundTrip(s, "");
    Behind("\"", Escaped(s), "\"");
    assert "\"" + "" == "\"";
  }

  lemma Behind<T>(a: seq<T>, b: seq<T>, c: seq<T>)
    ensures (a + b + c)[|a|..] == b + c
  {
  }

  lemma UnsetRoundTrip(prefix: string, name: string)
    requires PlainName(name)
    ensures var line := UnsetLine(prefix, name); line[0] == '#' && UnsetName(prefix, line) == Some(name)
  {
    var rest := "is not set\n";
    var p := name + [' '] + rest;
    var line := UnsetLine(prefix, name);
    IndexAfter(name, ' ', rest);
    assert line == ['#', ' '] + (prefix + p);
    assert line[2..] == prefix + p && line[2..][|prefix|..] == p;
    assert p[|name| + 1..] == rest && rest[..10] == "is not set" && p[..|name|] == name;
  }

  lemma ReadSetOf(prefix: string, types: Types, defs: Defs, name: string, rest: string)
    requires PlainName(name) && name in types
    ensures var line := prefix + name + "=" + rest;
      prefix <= line && ReadSet(prefix, types, defs, line) == Store(defs, name, ParseValue(types[name], Chomp(rest)))
  {
    var p, line := name + ['='] + rest, prefix + name + "=" + rest;
    IndexAfter(name, '=', rest);
    assert line == prefix + p;
    assert line[|prefix|..] == p && p[..|name|] == name && p[|name| + 1..] == rest;
  }

  lemma SetRoundTrip(prefix: string, types: Types, defs: Defs, name: string, text: string, v: Saved)
    requires PlainName(name) && name in types && ParseValue(types[name], text) == Some(v)
    requires '\n' !in text && text != "" && text[|text| - 1] != '\r'
    ensures var line := SetLine(prefix, name, text);
      prefix <= line && ReadSet(prefix, types, defs, line) == defs[name := v]
  {
    ReadSetOf(prefix, types, defs, name, text + "\n");
    NewlineAfter(text);
  }

  lemma FirstIsNotHash(prefix: string, name: string, text: string)
    requires PlainPrefix(prefix) && PlainName(name)
    ensures SetLine(prefix, name, text)[0] != '#'
  {
    var line := SetLine(prefix, name, text);
    if prefix != "" {
      assert line[0] == prefix[0];
    } else if name != "" {
      assert line[0] == name[0] && name[0] in name;
    } else {
      assert line[0] == '=';
    }
  }

  lemma SetLineRoundTrip(prefix: string, types: Types, defs: Defs, name: string, text: string, v: Saved)
    requires PlainPrefix(prefix) && PlainName(name) && name in types && ValidValue(types[name], v)
    requires text == ValueText(types[name], v)
    ensures ReadLine(prefix, types, defs, SetLine(prefix, name, text)) == defs[name := v]
  {
    ValueHasNoLineEnd(types[name], v);
    ValueRoundTrip(types[name], v);
    SetRoundTrip(prefix, types, defs, name, text, v);
    FirstIsNotHash(prefix, name, text);
  }

  lemma UnsetLineRoundTrip(prefix: string, types: Types, defs: Defs, name: string)
    requires PlainName(name) && name in types && IsTri(types[name])
    ensures ReadLine(prefix, types, defs, UnsetLine(prefix, name)) == defs[name := SavedTri(NO)]
  {
    UnsetRoundTrip(prefix, name);
  }

  /** A written line sets the symbol it was written for to the value it had, and nothing else. */
  lemma LineRoundTrip(prefix: string, types: Types, defs: Defs, name: string, v: Saved)
    requires PlainPrefix(prefix) && PlainName(name) && name in types && ValidValue(types[name], v)
    ensures ReadLine(prefix, types, defs, PrintSymbol(prefix, name, types[name], v)) == defs[name := v]
  {
    var text := ValueText(types[name], v);
    if IsTri(types[name]) && text[0] == 'n' {
      assert v == SavedTri(NO);
      UnsetLineRoundTrip(prefix, types, defs, name);
    } else {
      SetLineRoundTrip(prefix, types, defs, name, text, v);
    }
  }

  /** What stands in a configuration file: a symbol's line, or any other line. */
  datatype Item = Entry(name: string, value: Saved) | Remark(line: string)

  predicate IsLine(line: string) {
    line != "" && IndexOf(line, '\n') == |line| - 1
  }

  predicate PlainItem(types: Types, item: Item) {
    match item
    case Entry(name, v) => PlainName(name) && name in types && ValidValue(types[name], v)
    case Remark(line) => IsLine(line)
  }

  function Print(prefix: string, types: Types, item: Item): string
    requires PlainItem(types, item)
  {
    match item
    case Entry(name, v) => PrintSymbol(prefix, name, types[name], v)
    case Remark(line) => line
  }

  function Written(prefix: string, types: Types, items: seq<Item>): string
    requires forall item | item in items :: PlainItem(types, item)
  {
    if items == [] then "" else Print(prefix, types, items[0]) + Written(prefix, types, items[1..])
  }

  /** The symbol that a line says something about, and the value. */
  type Statement = Option<(string, Saved)>

  function LineSays(prefix: string, types: Types, line: string): Statement {
    if line != "" && line[0] == '#' then
      match UnsetName(prefix, line)
      case Some(name) => if name in types && IsTri(types[name]) then Some((name, SavedTri(NO))) else None
      case None => None
    else if prefix <= line then
      var p := line[|prefix|..];
      var i := IndexOf(p, '=');
      if i < |p| && p[..i] in types then
        match ParseValue(types[p[..i]], Chomp(p[i + 1..]))
        case Some(v) => Some((p[..i], v))
        case None => None
      else None
    else None
  }

  function After(defs: Defs, says: Statement): Defs {
    if says.Some? then defs[says.value.0 := says.value.1] else defs
  }

  lemma ReadLineSays(prefix: string, types: Types, defs: Defs, line: string)
    ensures ReadLine(prefix, types, defs, line) == After(defs, LineSays(prefix, types, line))
  {
  }

  function ItemSays(prefix: string, types: Types, item: Item): Statement {
    match item
    case Entry(name, v) => Some((name, v))
    case Remark(line) => LineSays(prefix, types, line)
  }

  /** What the file says, item by item. */
  function Said(prefix: string, types: Types, defs: Defs, items: seq<Item>): Defs
    decreases items
  {
    if items == [] then defs
    else Said(prefix, types, After(defs, ItemSays(prefix, types, items[0])), items[1..])
  }

  /** Nothing that is printed holds a newline before its end. */
  lemma PrintedIsLine(prefix: string, types: Types, item: Item)
    requires PlainPrefix(prefix) && PlainItem(types, item)
    ensures var line := Print(prefix, types, item); line != "" && IndexOf(line, '\n') == |line| - 1
  {
    if item.Entry? {
      var (name, v) := (item.name, item.value);
      var text := ValueText(types[name], v);
      ValueHasNoLineEnd(types[name], v);
      EndsLine("# " + prefix + name + " is not set");
      EndsLine(prefix + name + "=" + text);
      assert "# " + prefix + name + " is not set" + "\n" == UnsetLine(prefix, name);
      assert prefix + name + "=" + text + "\n" == SetLine(prefix, name, text);
    }
  }

  lemma EndsLine(body: string)
    requires '\n' !in body
    ensures IndexOf(body + "\n", '\n') == |body| == |body + "\n"| - 1
  {
    IndexAfter(body, '\n', "");
    assert body + ['\n'] + "" == body + "\n";
  }

  lemma FirstLine(line: string, rest: string)
    requires line != "" && IndexOf(line, '\n') == |line| - 1
    ensures Lines(line + rest) == [line] + Lines(rest)
  {
    var content := line + rest;
    forall j | 0 <= j < |line| - 1
      ensures content[j] != '\n'
    {
      assert content[j] == line[j];
    }
    IndexIs(content, '\n', |line| - 1);
    assert content[..|line|] == line && content[|line|..] == rest;
  }

  lemma ItemRoundTrip(prefix: string, types: Types, defs: Defs, item: Item)
    requires PlainPrefix(prefix) && PlainItem(types, item)
    ensures ReadLine(prefix, types, defs, Print(prefix, types, item)) == After(defs, ItemSays(prefix, types, item))
  {
    match item
    case Entry(name, v) => LineRoundTrip(prefix, types, defs, name, v);
    case Remark(line) => ReadLineSays(prefix, types, defs, line);
  }

  /** The reader recovers exactly what the items say, whatever was set before. */
  lemma {:induction false} FileRoundTrip(prefix: string, types: Types, defs: Defs, items: seq<Item>)
    requires PlainPrefix(prefix) && forall item | item in items :: PlainItem(types, item)
    ensures ReadLines(prefix, types, defs, Lines(Written(prefix, types, items))) == Said(prefix, types, defs, items)
    decreases items
  {
    if items != [] {
      var item := items[0];
      var line, rest := Print(prefix, types, item), Written(prefix, types, items[1..]);
      PrintedIsLine(prefix, types, item);
      FirstLine(line, rest);
      assert ([line] + Lines(rest))[1..] == Lines(rest);
      ItemRoundTrip(prefix, types, defs, item);
      FileRoundTrip(prefix, types, After(defs, ItemSays(prefix, types, item)), items[1..]);
    }
  }

  predicate About(prefix: string, types: Types, item: Item, name: string) {
    var says := ItemSays(prefix, types, item);
    says.Some? && says.value.0 == name
  }

  /** The last item about a symbol decides, and without one nothing changes; the result is the place of
      the item, or the number of items. */
  lemma {:induction false} LastDecides(prefix: string, types: Types, defs: Defs, items: seq<Item>, name: string) returns (i: nat)
    ensures i <= |items| && forall j | i < j < |items| :: !About(prefix, types, items[j], name)
    ensures var got := Said(prefix, types, defs, items);
      if i < |items| then
        && About(prefix, types, items[i], name)
        && name in got && got[name] == ItemSays(prefix, types, items[i]).value.1
      else
        && (forall j | 0 <= j < |items| :: !About(prefix, types, items[j], name))
        && (name in got <==> name in defs) && (name in got ==> got[name] == defs[name])
    decreases items
  {
    if items == [] {
      return 0;
    }
    var rest := items[1..];
    i := LastDecides(prefix, types, After(defs, ItemSays(prefix, types, items[0])), rest, name);
    forall j | 1 <= j < |items|
      ensures items[j] == rest[j - 1]
    {
    }
    if i == |rest| && About(prefix, types, items[0], name) {
      i := 0;
    } else {
      i := i + 1;
    }
  }

  /** No symbol has two lines of its own. */
  predicate NamesDiffer(items: seq<Item>) {
    forall i, j | 0 <= i < j < |items| && items[i].Entry? && items[j].Entry? :: items[i].name != items[j].name
  }

  /** A line that is no symbol's own, but says something about one all the same, is overruled by a later
      line or says what the symbol's own line says. */
  ghost predicate Harmless(prefix: string, types: Types, items: seq<Item>, i: nat)
    requires i < |items|
  {
    var says := ItemSays(prefix, types, items[i]);
    items[i].Remark? && says.Some? ==>
      || (exists j :: i < j < |items| && About(prefix, types, items[j], says.value.0))
      || Entry(says.value.0, says.value.1) in items
  }

  ghost predicate AllHarmless(prefix: string, types: Types, items: seq<Item>) {
    forall i | 0 <= i < |items| :: Harmless(prefix, types, items, i)
  }

  /** Every symbol with a line of its own has its value back, and no other symbol has one. */
  ghost predicate Restored(got: Defs, items: seq<Item>) {
    && (forall item | item in items && item.Entry? :: item.name in got && got[item.name] == item.value)
    && (forall name | name in got :: exists item :: item in items && item.Entry? && item.name == name)
  }

  lemma HarmlessRestoresOne(prefix: string, types: Types, items: seq<Item>, name: string)
    requires NamesDiffer(items) && AllHarmless(prefix, types, items)
    ensures var got := Said(prefix, types, map[], items);
      && (forall item | item in items && item.Entry? && item.name == name :: name in got && got[name] == item.value)
      && (name in got ==> exists item :: item in items && item.Entry? && item.name == name)
  {
    var i := LastDecides(prefix, types, map[], items, name);
    if i < |items| {
      assert Harmless(prefix, types, items, i);
      var own := if items[i].Entry? then items[i] else Entry(name, ItemSays(prefix, types, items[i]).value.1);
      assert own in items;
      forall item | item in items && item.Entry? && item.name == name
        ensures item == own
      {
        var j, k :| 0 <= j < |items| && 0 <= k < |items| && items[j] == item && items[k] == own;
      }
    } else {
      forall item | item in items && item.Entry?
        ensures item.name != name
      {
        var j :| 0 <= j < |items| && items[j] == item;
        assert !About(prefix, types, items[j], name);
      }
    }
  }

  lemma RestoredIsHarmless(prefix: string, types: Types, items: seq<Item>, i: nat)
    requires i < |items| && Restored(Said(prefix, types, map[], items), items)
    ensures Harmless(prefix, types, items, i)
  {
    var says := ItemSays(prefix, types, items[i]);
    if items[i].Remark? && says.Some? {
      var name := says.value.0;
      var last := LastDecides(prefix, types, map[], items, name);
      assert About(prefix, types, items[i], name);
      if last == i {
        var item :| item in items && item.Entry? && item.name == name;
        assert item == Entry(name, says.value.1);
      }
    }
  }

  /** When no name is written twice, every symbol comes back with its own value, and no other symbol
      has one, exactly when all other lines are harmless. */
  lemma SaidExactly(prefix: string, types: Types, items: seq<Item>)
    requires NamesDiffer(items)
    ensures Restored(Said(prefix, types, map[], items), items) <==> AllHarmless(prefix, types, items)
  {
    var got := Said(prefix, types, map[], items);
    if AllHarmless(prefix, types, items) {
      forall item | item in items && item.Entry?
        ensures item.name in got && got[item.name] == item.value
      {
        HarmlessRestoresOne(prefix, types, items, item.name);
      }
      forall name | name in got
        ensures exists item :: item in items && item.Entry? && item.name == name
      {
        HarmlessRestoresOne(prefix, types, items, name);
      }
    }
    if Restored(got, items) {
      forall i | 0 <= i < |items|
        ensures Harmless(prefix, types, items, i)
      {
        RestoredIsHarmless(prefix, types, items, i);
      }
    }
  }

  // ---- Strings with newlines --------------------------------------------------------------------

  lemma {:induction false} EscapedAppend(a: string, b: string)
    ensures Escaped(a + b) == Escaped(a) + Escaped(b)
  {
    if a == "" {
      assert a + b == b;
    } else {
      assert (a + b)[1..] == a[1..] + b;
      EscapedAppend(a[1..], b);
    }
  }

  /** Every quote has a backslash before it. */
  predicate QuotesEscaped(t: string) {
    forall i | 0 <= i < |t| && t[i] == '"' :: i > 0 && t[i - 1] == '\\'
  }

  lemma {:induction false} EscapedQuotes(s: string)
    ensures QuotesEscaped(Escaped(s))
  {
    if s != "" {
      EscapedQuotes(s[1..]);
      var one, e := if Special(s[0]) then ['\\', s[0]] else [s[0]], Escaped(s[1..]);
      var t := Escaped(s);
      assert t == one + e;
      forall i | 0 <= i < |t| && t[i] == '"'
        ensures i > 0 && t[i - 1] == '\\'
      {
        assert i >= |one| ==> t[i] == e[i - |one|];
      }
    }
  }

  lemma QuoteAfterEquals(t: string, line: string, k: nat)
    requires QuotesEscaped(t) && t <= line && 0 < k < |line| && line[k] == '"' && line[k - 1] == '='
    ensures k >= |t|
  {
  }

  lemma LineEnds()
    ensures Chomp("\n") == "" && Chomp("\"\n") == "\""
  {
    assert IndexOf("\"\n", '\n') == 1 && "\"\n"[..1] == "\"";
  }

  /** A line gives a string symbol no value unless an unescaped quote follows an equals sign and
      something follows the quote. */
  lemma NoStringSet(prefix: string, types: Types, defs: Defs, name: string, t: string, end: string)
    requires name in types && types[name] == Str && name !in defs
    requires QuotesEscaped(t) && (end == "\n" || end == "\"\n") && prefix <= t + end
    ensures name !in ReadSet(prefix, types, defs, t + end)
  {
    var line := t + end;
    var p := line[|prefix|..];
    var i := IndexOf(p, '=');
    if i < |p| {
      var rest := p[i + 1..];
      var v := Chomp(rest);
      if v != "" && v[0] == '"' {
        var k := |prefix| + i + 1;
        assert v[0] == rest[0] == line[k] && line[k - 1] == '=';
        QuoteAfterEquals(t, line, k);
        assert k == |t| && rest == end;
        LineEnds();
      }
    }
  }

  lemma NoStringOnLine(prefix: string, types: Types, defs: Defs, name: string, t: string, end: string)
    requires name in types && types[name] == Str && name !in defs
    requires QuotesEscaped(t) && (end == "\n" || end == "\"\n")
    ensures name !in ReadLine(prefix, types, defs, t + end)
  {
    if prefix <= t + end {
      NoStringSet(prefix, types, defs, name, t, end);
    }
  }

  lemma {:induction false} LaterLines(prefix: string, types: Types, defs: Defs, name: string, s: string)
    requires name in types && types[name] == Str && name !in defs
    ensures name !in ReadLines(prefix, types, defs, Lines(Escaped(s) + "\"\n"))
    decreases |s|
  {
    var n := IndexOf(s, '\n');
    var u := s[..n];
    EscapedQuotes(u);
    assert '\n' !in u;
    EscapedHasNoNewline(u);
    if n == |s| {
      assert u == s;
      IndexAfter(Escaped(s) + "\"", '\n', "");
      var line := Escaped(s) + "\"\n";
      assert (Escaped(s) + "\"") + ['\n'] + "" == line && line + "" == line;
      FirstLine(line, "");
      NoStringOnLine(prefix, types, defs, name, Escaped(s), "\"\n");
    } else {
      var w := s[n + 1..];
      assert s == u + "\n" + w;
      EscapedAppend(u + "\n", w);
      EscapedAppend(u, "\n");
      var line, rest := Escaped(u) + "\n", Escaped(w) + "\"\n";
      assert Escaped("\n") == "\n";
      assert Escaped(s) + "\"\n" == line + rest;
      IndexAfter(Escaped(u), '\n', "");
      assert Escaped(u) + ['\n'] + "" == line;
      FirstLine(line, rest);
      assert ([line] + Lines(rest))[1..] == Lines(rest);
      NoStringOnLine(prefix, types, defs, name, Escaped(u), "\n");
      LaterLines(prefix, types, ReadLine(prefix, types, defs, line), name, w);
    }
  }

  lemma {:induction false} LastEscaped(u: string)
    requires u != ""
    ensures Escaped(u) != "" && Escaped(u)[|Escaped(u)| - 1] == u[|u| - 1]
  {
    if |u| > 1 {
      LastEscaped(u[1..]);
    }
  }

  lemma Unclosed(u: string)
    ensures ParseValue(Str, "\"" + Escaped(u)) == None
  {
    assert ("\"" + Escaped(u))[1..] == Escaped(u);
    EscapeRoundTrip(u, "");
  }

  lemma NewlineAfter(t: string)
    requires '\n' !in t
    ensures IndexOf(t + "\n", '\n') == |t|
    ensures Chomp(t + "\n") == if t != "" && t[|t| - 1] == '\r' then t[..|t| - 1] else t
  {
    IndexAfter(t, '\n', "");
    assert t + ['\n'] + "" == t + "\n" && (t + "\n")[..|t|] == t;
  }

  /** Up to its first newline a string looks as if its closing quote were missing. */
  lemma BrokenText(u: string)
    requires '\n' !in u
    ensures '\n' !in "\"" + Escaped(u) && ParseValue(Str, Chomp("\"" + Escaped(u) + "\n")) == None
  {
    var text := "\"" + Escaped(u);
    EscapedHasNoNewline(u);
    NewlineAfter(text);
    if u != "" {
      LastEscaped(u);
    }
    if u != "" && u[|u| - 1] == '\r' {
      var u' := u[..|u| - 1];
      assert u == u' + "\r";
      EscapedAppend(u', "\r");
      assert Escaped("\r") == "\r";
      assert text[..|text| - 1] == "\"" + Escaped(u');
      Unclosed(u');
    } else {
      Unclosed(u);
    }
  }

  lemma BrokenLine(prefix: string, types: Types, defs: Defs, name: string, u: string)
    requires PlainPrefix(prefix) && PlainName(name) && name in types && types[name] == Str && '\n' !in u
    ensures var line := prefix + name + "=" + ("\"" + Escaped(u) + "\n");
      IndexOf(line, '\n') == |line| - 1 && ReadLine(prefix, types, defs, line) == defs
  {
    var text := "\"" + Escaped(u);
    BrokenText(u);
    ReadSetOf(prefix, types, defs, name, text + "\n");
    FirstIsNotHash(prefix, name, text);
    var before := prefix + name + "=" + text;
    assert '\n' !in before;
    NewlineAfter(before);
    assert before + "\n" == prefix + name + "=" + (text + "\n");
  }

  lemma EscapedAtNewline(u: string, w: string)
    ensures Escaped(u + "\n" + w) == Escaped(u) + "\n" + Escaped(w)
  {
    EscapedAppend(u + "\n", w);
    EscapedAppend(u, "\n");
    assert Escaped("\n") == "\n";
  }

  lemma Shuffle(a: string, q: string, e: string, nl: string, f: string)
    ensures a + (q + (e + nl + f) + q + nl) == a + (q + e + nl) + (f + (q + nl))
  {
  }

  /** A string comes back from the file exactly if it has no newline; with one, the symbol comes back
      without any value. */
  lemma StringSurvives(prefix: string, types: Types, name: string, s: string)
    requires PlainPrefix(prefix) && PlainName(name) && name in types && types[name] == Str
    ensures var got := ReadFile(prefix, types, PrintSymbol(prefix, name, Str, SavedText(s)));
      if '\n' in s then name !in got else got == map[name := SavedText(s)]
  {
    var n := IndexOf(s, '\n');
    if n == |s| {
      WholeString(prefix, types, name, s);
    } else {
      assert s[..n] + "\n" + s[n + 1..] == s;
      BrokenString(prefix, types, name, s[..n], s[n + 1..]);
    }
  }

  lemma WholeString(prefix: string, types: Types, name: string, s: string)
    requires PlainPrefix(prefix) && PlainName(name) && name in types && types[name] == Str && '\n' !in s
    ensures ReadFile(prefix, types, PrintSymbol(prefix, name, Str, SavedText(s))) == map[name := SavedText(s)]
  {
    var item := Entry(name, SavedText(s));
    var content := Print(prefix, types, item);
    assert Written(prefix, types, [item][1..]) == "";
    assert content + "" == content;
    FileRoundTrip(prefix, types, map[], [item]);
    assert Said(prefix, types, map[name := SavedText(s)], [item][1..]) == map[name := SavedText(s)];
  }

  lemma BrokenString(prefix: string, types: Types, name: string, u: string, w: string)
    requires PlainPrefix(prefix) && PlainName(name) && name in types && types[name] == Str && '\n' !in u
    ensures name !in ReadFile(prefix, types, PrintSymbol(prefix, name, Str, SavedText(u + "\n" + w)))
  {
    var a := prefix + name + "=";
    var line, rest := a + ("\"" + Escaped(u) + "\n"), Escaped(w) + ("\"" + "\n");
    EscapedAtNewline(u, w);
    Shuffle(a, "\"", Escaped(u), "\n", Escaped(w));
    assert PrintSymbol(prefix, name, Str, SavedText(u + "\n" + w)) == line + rest;
    BrokenLine(prefix, types, map[], name, u);
    FirstLine(line, rest);
    assert ([line] + Lines(rest))[1..] == Lines(rest);
    assert "\"" + "\n" == "\"\n";
    LaterLines(prefix, types, map[], name, w);
  }

  // ---- The implementation -----------------------------------------------------------------------

  /** Read a string back out of its buffer. */
  method Fetch(buf: array<char>, p: nat, ghost s: string) returns (t: string)
    requires Holds(buf[..], p, s)
    ensures t == s
  {
    var n := StrLen(buf, p, s);
    t := buf[p..p + n];
  }

  /** conf_set_sym_val: the value, or none if the text is not one. */
  method SetSymVal(typ: SymType, p: string) returns (v: Option<Saved>)
    requires NUL !in p
    ensures v == ParseValue(typ, p)
  {
    if typ == SymType.Tristate && p != "" && p[0] == 'm' {
      return Some(SavedTri(MOD));
    }
    if IsTri(typ) {
      if p != "" && p[0] == 'y' {
        return Some(SavedTri(YES));
      }
      if p != "" && p[0] == 'n' {
        return Some(SavedTri(NO));
      }
      return None;
    }
    if typ == Str {
      if p == "" || p[0] != '"' {
        return None;
      }
      var buf := new char[|p| + 1](i requires 0 <= i <= |p| => if i < |p| then p[i] else NUL);
      assert buf[1..|p|] == p[1..];
      var ok := UnescapeInPlace(buf, 1, p[1..]);
      if !ok {
        return None;
      }
      var s := Fetch(buf, 1, Unescaped(p[1..]).value);
      return Some(SavedText(s));
    }
    if (typ == Int || typ == Hex) && StringValid(typ, p) {
      return Some(SavedText(p));
    }
    return None;
  }

  lemma LastLine(rest: string)
    requires rest != "" && '\n' !in rest
    ensures Lines(rest) == [rest] + Lines("")
  {
    assert IndexOf(rest, '\n') == |rest|;
  }

  /** The line that starts at a position, given the next newline, if there is one. */
  lemma CutLine(content: string, pos: nat, n: nat, end: nat)
    requires pos < |content| && pos <= n <= |content| && forall j | pos <= j < n :: content[j] != '\n'
    requires if n < |content| then content[n] == '\n' && end == n + 1 else end == n
    ensures Lines(content[pos..]) == [content[pos..end]] + Lines(content[end..])
  {
    var line, rest := content[pos..end], content[end..];
    assert line + rest == content[pos..];
    if n < |content| {
      IndexIs(line, '\n', n - pos);
      FirstLine(line, rest);
    } else {
      LastLine(line);
      assert rest == "" && line == content[pos..];
    }
  }

  /** compat_getline: characters up to and with the next newline. */
  method GetLine(content: string, pos: nat) returns (line: string, next: nat)
    requires pos < |content|
    ensures pos < next <= |content| && line == content[pos..next]
    ensures Lines(content[pos..]) == [line] + Lines(content[next..])
  {
    next := pos;
    while next < |content| && content[next] != '\n'
      invariant pos <= next <= |content| && forall j | pos <= j < next :: content[j] != '\n'
    {
      next := next + 1;
    }
    ghost var n := next;
    if next < |content| {
      next := next + 1;
    }
    CutLine(content, pos, n, next);
    line := content[pos..next];
  }

  lemma ChompTakes(p: string, i: nat)
    requires i <= |p| && NUL !in p
    ensures NUL !in Chomp(p[i..])
  {
    assert Chomp(p[i..]) <= p[i..];
  }

  class Reader {
    const prefix: string
    const types: Types
    var defs: Defs

    constructor (prefix: string, types: Types)
      ensures this.prefix == prefix && this.types == types && defs == map[]
    {
      this.prefix, this.types, defs := prefix, types, map[];
    }

    /** The reading loop of conf_read_simple, after conf_reset has dropped all values. */
    method ReadSimple(content: string)
      requires NUL !in content
      modifies this
      ensures defs == ReadFile(prefix, types, content)
    {
      defs := map[];
      var pos := 0;
      assert content[0..] == content;
      while pos < |content|
        invariant pos <= |content|
        invariant ReadLines(prefix, types, defs, Lines(content[pos..])) == ReadFile(prefix, types, content)
      {
        var line, next := GetLine(content, pos);
        assert ([line] + Lines(content[next..]))[1..] == Lines(content[next..]);
        Take(line);
        pos := next;
      }
      assert content[pos..] == "";
    }

    method Take(line: string)
      requires NUL !in line
      modifies this
      ensures defs == ReadLine(prefix, types, old(defs), line)
    {
      if line != "" && line[0] == '#' {
        var name := UnsetName(prefix, line);
        if name.Some? && name.value in types && IsTri(types[name.value]) {
          defs := defs[name.value := SavedTri(NO)];
        }
      } else if prefix <= line {
        TakeAssignment(line[|prefix|..]);
      }
    }

    /** Name, equals sign and value. */
    method TakeAssignment(p: string)
      requires NUL !in p
      modifies this
      ensures defs == ReadAssignment(types, old(defs), p)
    {
      var i := IndexOf(p, '=');
      if i < |p| && p[..i] in types {
        ChompTakes(p, i + 1);
        TakeValue(p[..i], Chomp(p[i + 1..]));
      }
    }

    method TakeValue(name: string, text: string)
      requires NUL !in text && name in types
      modifies this
      ensures defs == Store(old(defs), name, ParseValue(types[name], text))
    {
      var v := SetSymVal(types[name], text);
      if v.Some? {
        defs := defs[name := v.value];
      }
    }
  }
}
