/** What the canonical writer writes, spelled out: the order of keys, the separators, and every escape. */
module JsonText {
  import opened Basics
  import opened StableJson

  // ---------------------------------------------------------------- the order of keys

  /** The keys agree up to position `n`, and there the first one ends or has the smaller scalar. */
  predicate DiffersAt(a: string, b: string, n: nat) {
    && n <= |a| && n <= |b| && a[..n] == b[..n]
    && (n == |a| < |b| || (n < |a| && n < |b| && a[n] < b[n]))
  }

  /** Lexicographic order, by the first difference. */
  predicate KeyBefore(a: string, b: string) {
    exists n: nat | n <= |a| :: DiffersAt(a, b, n)
  }

  /** The recursive comparison decides lexicographic order. */
  lemma {:induction false} LessIsKeyBefore(a: string, b: string)
    ensures Less(a, b) <==> KeyBefore(a, b)
    decreases |a|
  {
    if a == "" || b == "" || a[0] != b[0] {
      DifferenceAtStart(a, b);
    } else {
      LessIsKeyBefore(a[1..], b[1..]);
      assert a == [a[0]] + a[1..] && b == [b[0]] + b[1..];
      if KeyBefore(a[1..], b[1..]) {
        var n: nat :| n <= |a[1..]| && DiffersAt(a[1..], b[1..], n);
        assert a[..n + 1] == [a[0]] + a[1..][..n] && b[..n + 1] == [b[0]] + b[1..][..n];
        assert DiffersAt(a, b, n + 1);
      }
      if KeyBefore(a, b) {
        var n: nat :| n <= |a| && DiffersAt(a, b, n);
        assert n > 0;
        assert a[1..][..n - 1] == a[..n][1..] && b[1..][..n - 1] == b[..n][1..];
        assert DiffersAt(a[1..], b[1..], n - 1);
      }
    }
  }

  lemma DifferenceAtStart(a: string, b: string)
    requires a == "" || b == "" || a[0] != b[0]
    ensures Less(a, b) <==> KeyBefore(a, b)
  {
    if Less(a, b) {
      assert DiffersAt(a, b, 0);
    }
    forall n: nat | 0 < n <= |a| && n <= |b| ensures a[..n] != b[..n] {
      assert a[..n][0] == a[0] && b[..n][0] == b[0];
    }
  }

  /** Entries in the order of their keys. */
  predicate InKeyOrder<T>(entries: seq<Keyed<T>>) {
    forall i, j :: 0 <= i < j < |entries| ==> KeyBefore(entries[i].key, entries[j].key)
  }

  /** The entries are written in key order: the sorted ones are the same entries, each key before the next. */
  lemma SortedInKeyOrder<T>(entries: seq<Keyed<T>>)
    requires DistinctKeys(entries)
    ensures InKeyOrder(Sort(entries)) && |Sort(entries)| == |entries|
    ensures forall x :: x in Sort(entries) <==> x in entries
  {
    SortAscends(entries);
    forall x ensures x in Sort(entries) <==> x in entries {
      SortMembers(entries, x);
    }
    if entries != [] {
      SortMembers(entries, entries[0]);
    }
    forall i, j | 0 <= i < j < |Sort(entries)| ensures KeyBefore(Sort(entries)[i].key, Sort(entries)[j].key) {
      LessIsKeyBefore(Sort(entries)[i].key, Sort(entries)[j].key);
    }
  }

  /** Any listing of the same entries in key order is the sorted one. */
  lemma SortIsTheOrder<T>(entries: seq<Keyed<T>>, order: seq<Keyed<T>>)
    requires DistinctKeys(entries) && InKeyOrder(order) && forall x :: x in order <==> x in entries
    ensures Sort(entries) == order
  {
    SortedInKeyOrder(entries);
    AscendsInOrder(order);
    AscendsInOrder(Sort(entries));
    AscendingUnique(Sort(entries), order);
  }

  lemma AscendsInOrder<T>(entries: seq<Keyed<T>>)
    requires InKeyOrder(entries)
    ensures Ascending(entries)
  {
    forall i, j | 0 <= i < j < |entries| ensures Less(entries[i].key, entries[j].key) {
      LessIsKeyBefore(entries[i].key, entries[j].key);
    }
  }

  // ---------------------------------------------------------------- separators

  /** A text without its closing bracket. */
  function Open(text: string): string
    requires text != ""
  {
    text[..|text| - 1]
  }

  lemma {:induction false} ListedSnoc(texts: seq<string>, text: string, i: nat)
    requires i <= |texts|
    ensures Listed(texts + [text], i) == Listed(texts, i) + (if texts == [] then "" else ",") + text
    decreases |texts| - i
  {
    var longer := texts + [text];
    if i < |texts| {
      ListedSnoc(texts, text, i + 1);
      assert longer[i] == texts[i];
    } else {
      assert Listed(longer, i) == (if i > 0 then "," else "") + text + Listed(longer, i + 1);
      assert Listed(longer, i + 1) == "";
    }
  }

  lemma OpenOf(open: string, body: string, close: string)
    requires |close| == 1
    ensures open + body + close != "" && Open(open + body + close) == open + body
  {
  }

  lemma Regroup(open: string, body: string, comma: string, text: string, close: string)
    ensures open + (body + comma + text) + close == open + body + comma + text + close
  {
  }

  /** An array's text: brackets around its items' texts, with one comma between two of them. */
  lemma ArrayText(items: seq<Value>, item: Value)
    ensures Render(Array([])) == "[]"
    ensures Render(Array(items)) != ""
    ensures Render(Array(items + [item]))
            == Open(Render(Array(items))) + (if items == [] then "" else ",") + Render(item) + "]"
  {
    var texts := RenderAll(items);
    assert RenderAll(items + [item]) == texts + [Render(item)];
    ListedSnoc(texts, Render(item), 0);
    OpenOf("[", Listed(texts, 0), "]");
    Regroup("[", Listed(texts, 0), if items == [] then "" else ",", Render(item), "]");
  }

  function Member(entry: Keyed<Value>): string {
    Quote(entry.key) + ":" + Render(entry.item)
  }

  /**
    An object's text: braces around its members' texts, a quoted key, a colon and the value each, with one
    comma between two of them; the member with the greatest key comes last.
   */
  lemma ObjectText(entries: seq<Keyed<Value>>, last: Keyed<Value>)
    requires DistinctKeys(entries)
    requires forall i :: 0 <= i < |entries| ==> KeyBefore(entries[i].key, last.key)
    ensures Render(Object([])) == "{}"
    ensures Render(Object(entries)) != ""
    ensures Render(Object(entries + [last]))
            == Open(Render(Object(entries))) + (if entries == [] then "" else ",")
                 + (Quote(last.key) + ":" + Render(last.item)) + "}"
  {
    EmptyObjectText();
    LastSorts(entries, last);
    SortedInKeyOrder(entries);
    MembersText(entries, Sort(entries));
    MembersText(entries + [last], Sort(entries) + [last]);
    BracedSnoc(Sort(entries), last);
  }

  lemma EmptyObjectText()
    ensures Render(Object([])) == "{}"
  {
  }

  /** The braced text of one member more. */
  lemma BracedSnoc(order: seq<Keyed<Value>>, last: Keyed<Value>)
    ensures
      var before := "{" + Listed(Members(RenderEach(order)), 0) + "}";
      && before != ""
      && "{" + Listed(Members(RenderEach(order + [last])), 0) + "}"
         == Open(before) + (if order == [] then "" else ",") + Member(last) + "}"
  {
    var texts := Members(RenderEach(order));
    MembersSnoc(order, last);
    ListedSnoc(texts, Member(last), 0);
    OpenOf("{", Listed(texts, 0), "}");
    Regroup("{", Listed(texts, 0), if order == [] then "" else ",", Member(last), "}");
  }

  lemma MembersSnoc(order: seq<Keyed<Value>>, last: Keyed<Value>)
    ensures Members(RenderEach(order + [last])) == Members(RenderEach(order)) + [Member(last)]
  {
  }

  lemma MembersText(entries: seq<Keyed<Value>>, order: seq<Keyed<Value>>)
    requires order == Sort(entries)
    ensures Render(Object(entries)) == "{" + Listed(Members(RenderEach(order)), 0) + "}"
  {
    StableJson.ObjectText(entries);
  }

  lemma LastSorts(entries: seq<Keyed<Value>>, last: Keyed<Value>)
    requires DistinctKeys(entries)
    requires forall i :: 0 <= i < |entries| ==> KeyBefore(entries[i].key, last.key)
    ensures Sort(entries + [last]) == Sort(entries) + [last]
  {
    var order := Sort(entries);
    assert (entries + [last])[..|entries|] == entries;
    if order != [] {
      SortedInKeyOrder(entries);
      assert order[|order| - 1] in entries;
      LessIsKeyBefore(order[|order| - 1].key, last.key);
    }
  }

  // ---------------------------------------------------------------- strings

  /** The value of a hexadecimal digit, in either case. */
  function HexValue(c: char): Option<nat> {
    if '0' <= c <= '9' then Some(c as nat - '0' as nat)
    else if 'a' <= c <= 'f' then Some(c as nat - 'a' as nat + 10)
    else if 'A' <= c <= 'F' then Some(c as nat - 'A' as nat + 10)
    else None
  }

  /** The two-character escapes of section 7 of RFC 8259. */
  function ShortEscape(c: char): Option<char> {
    match c
    case '\"' => Some('\"')
    case '\\' => Some('\\')
    case '/' => Some('/')
    case 'b' => Some('\U{0008}')
    case 'f' => Some('\U{000C}')
    case 'n' => Some('\n')
    case 'r' => Some('\r')
    case 't' => Some('\t')
    case _ => None
  }

  /** The escape `\u00XY` names the scalar with that value; others are not needed here. */
  function LongEscape(text: string): Option<char>
    requires |text| == 4
  {
    var high, low := HexValue(text[2]), HexValue(text[3]);
    if text[0] != '0' || text[1] != '0' || high.None? || low.None? then None
    else Some((16 * high.value + low.value) as char)
  }

  /** The inside of a JSON string, read back by section 7 of RFC 8259. */
  function Unescape(text: string): Option<string> {
    if text == "" then Some("")
    else if text[0] == '\"' || text[0] < ' ' then None
    else if text[0] != '\\' then Prepend(text[0], Unescape(text[1..]))
    else if |text| >= 6 && text[1] == 'u' then
      var c := LongEscape(text[2..6]);
      if c.None? then None else Prepend(c.value, Unescape(text[6..]))
    else if |text| >= 2 && ShortEscape(text[1]).Some? then Prepend(ShortEscape(text[1]).value, Unescape(text[2..]))
    else None
  }

  function Prepend(c: char, rest: Option<string>): Option<string> {
    if rest.None? then None else Some([c] + rest.value)
  }

  /** The texts of the leaves; between a string's quotes stands a text that reads back as the string. */
  lemma LeafTexts(s: string)
    ensures Render(Null) == "null" && Render(Bool(true)) == "true" && Render(Bool(false)) == "false"
    ensures Render(Number(s)) == s
    ensures
      var text := Render(Text(s));
      && |text| >= 2 && text[0] == '\"' && text[|text| - 1] == '\"' && text == Quote(s)
      && Unescape(text[1..|text| - 1]) == Some(s)
  {
    EscapesReadBack(s);
    var text := Quote(s);
    assert text[1..|text| - 1] == EscapeAll(s);
  }

  /** Which form each scalar takes: itself, one of seven short escapes, or four lower-case hexadecimal digits. */
  lemma EscapeForm(c: char)
    ensures |Escape(c)| == 1 <==> c != '\"' && c != '\\' && c >= ' '
    ensures |Escape(c)| == 2 <==>
            c in {'\"', '\\', '\U{0008}', '\U{000C}', '\n', '\r', '\t'}
    ensures |Escape(c)| == 1 || |Escape(c)| == 2 || |Escape(c)| == 6
    ensures forall i :: 2 <= i < |Escape(c)| ==> '0' <= Escape(c)[i] <= '9' || 'a' <= Escape(c)[i] <= 'f'
  {
  }

  lemma PlainReads(c: char, rest: string)
    requires |Escape(c)| == 1
    ensures Unescape(Escape(c) + rest) == Prepend(c, Unescape(rest))
  {
    var text := Escape(c) + rest;
    assert text[1..] == rest && text[0] == c;
  }

  lemma ShortReads(c: char, rest: string)
    requires |Escape(c)| == 2
    ensures Unescape(Escape(c) + rest) == Prepend(c, Unescape(rest))
  {
    var text := Escape(c) + rest;
    assert text[2..] == rest && text[0] == '\\' && text[1] == Escape(c)[1];
    assert text[1] != 'u' && ShortEscape(text[1]) == Some(c);
  }

  lemma HexReads(n: nat)
    requires n < 16
    ensures HexValue(HexDigit(n)) == Some(n)
  {
  }

  lemma LongEscapeReads(c: char)
    requires |Escape(c)| == 6
    ensures Escape(c)[..2] == "\\u" && LongEscape(Escape(c)[2..6]) == Some(c)
  {
    var high, low := c as nat / 16, c as nat % 16;
    HexReads(high);
    HexReads(low);
    assert (16 * high + low) as char == c;
  }

  lemma LongReads(c: char, rest: string)
    requires |Escape(c)| == 6
    ensures Unescape(Escape(c) + rest) == Prepend(c, Unescape(rest))
  {
    var text := Escape(c) + rest;
    LongEscapeReads(c);
    assert text[..2] == Escape(c)[..2] && text[2..6] == Escape(c)[2..6] && text[6..] == rest;
    assert text[0] == text[..2][0] && text[1] == text[..2][1];
  }

  /** Reading one escape gives its scalar back, whatever follows. */
  lemma EscapeReads(c: char, rest: string)
    ensures Unescape(Escape(c) + rest) == Prepend(c, Unescape(rest))
  {
    EscapeForm(c);
    if |Escape(c)| == 1 {
      PlainReads(c, rest);
    } else if |Escape(c)| == 2 {
      ShortReads(c, rest);
    } else {
      LongReads(c, rest);
    }
  }

  /** What is written inside the quotes reads back as the string. */
  lemma {:induction false} EscapesReadBack(s: string)
    ensures Unescape(EscapeAll(s)) == Some(s)
  {
    if s != "" {
      EscapesReadBack(s[1..]);
      EscapeReads(s[0], EscapeAll(s[1..]));
      assert [s[0]] + s[1..] == s;
    }
  }
}
