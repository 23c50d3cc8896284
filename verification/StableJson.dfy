/**
  The canonical JSON writer behind every digest: what it writes, and that what it writes identifies
  the value up to the order of object entries.

  Strings are sequences of Unicode scalar values. Keys are compared scalar by scalar, which is also
  the order of their UTF-8 bytes. A number is its lexeme.
 */
module StableJson {

  datatype Keyed<T> = Keyed(key: string, item: T)

  datatype Value =
    | Null
    | Bool(b: bool)
    | Number(lexeme: string)
    | Text(s: string)
    | Array(items: seq<Value>)
    | Object(entries: seq<Keyed<Value>>)

  // ---------------------------------------------------------------- key order

  /** Lexicographic order of keys. */
  predicate Less(a: string, b: string)
    decreases |a|
  {
    if b == "" then false
    else if a == "" then true
    else if a[0] != b[0] then a[0] < b[0]
    else Less(a[1..], b[1..])
  }

  lemma {:induction false} LessTotal(a: string, b: string)
    ensures Less(a, b) || a == b || Less(b, a)
    ensures !(Less(a, b) && Less(b, a)) && !Less(a, a)
    decreases |a|
  {
    if a != "" {
      LessTotal(a[1..], a[1..]);
      if b != "" {
        LessTotal(a[1..], b[1..]);
        if a[0] == b[0] && a[1..] == b[1..] {
          assert a == [a[0]] + a[1..] && b == [b[0]] + b[1..];
        }
      }
    }
  }

  lemma {:induction false} LessTransitive(a: string, b: string, c: string)
    requires Less(a, b) && Less(b, c)
    ensures Less(a, c)
    decreases |a|
  {
    if a != "" && a[0] == b[0] && b[0] == c[0] {
      LessTransitive(a[1..], b[1..], c[1..]);
    }
  }

  /** Insertion into entries in key order. */
  function Insert<T>(e: Keyed<T>, sorted: seq<Keyed<T>>): seq<Keyed<T>> {
    if sorted == [] then [e]
    else if Less(sorted[|sorted| - 1].key, e.key) then sorted + [e]
    else Insert(e, sorted[..|sorted| - 1]) + [sorted[|sorted| - 1]]
  }

  /** The entries in key order. */
  function Sort<T>(entries: seq<Keyed<T>>): seq<Keyed<T>> {
    if entries == [] then [] else Insert(entries[|entries| - 1], Sort(entries[..|entries| - 1]))
  }

  predicate Ascending<T>(entries: seq<Keyed<T>>) {
    forall i, j :: 0 <= i < j < |entries| ==> Less(entries[i].key, entries[j].key)
  }

  predicate DistinctKeys<T>(entries: seq<Keyed<T>>) {
    forall i, j :: 0 <= i < j < |entries| ==> entries[i].key != entries[j].key
  }

  lemma {:induction false} InsertMembers<T>(e: Keyed<T>, sorted: seq<Keyed<T>>, x: Keyed<T>)
    ensures x in Insert(e, sorted) <==> x == e || x in sorted
    ensures |Insert(e, sorted)| == |sorted| + 1
  {
    if sorted != [] {
      InsertMembers(e, sorted[..|sorted| - 1], x);
    }
  }

  lemma {:induction false} SortMembers<T>(entries: seq<Keyed<T>>, x: Keyed<T>)
    ensures x in Sort(entries) <==> x in entries
    ensures |Sort(entries)| == |entries|
  {
    if entries != [] {
      SortMembers(entries[..|entries| - 1], x);
      InsertMembers(entries[|entries| - 1], Sort(entries[..|entries| - 1]), x);
    }
  }

  lemma {:induction false} InsertAscends<T>(e: Keyed<T>, sorted: seq<Keyed<T>>)
    requires Ascending(sorted) && forall i :: 0 <= i < |sorted| ==> sorted[i].key != e.key
    ensures Ascending(Insert(e, sorted))
  {
    if sorted != [] {
      var front, last := sorted[..|sorted| - 1], sorted[|sorted| - 1];
      LessTotal(last.key, e.key);
      if Less(last.key, e.key) {
        forall i | 0 <= i < |front| ensures Less(sorted[i].key, e.key) {
          LessTransitive(sorted[i].key, last.key, e.key);
        }
      } else {
        InsertAscends(e, front);
        forall i | 0 <= i < |Insert(e, front)| ensures Less(Insert(e, front)[i].key, last.key) {
          InsertMembers(e, front, Insert(e, front)[i]);
        }
      }
    }
  }

  /** Entries with distinct keys sort into strictly ascending order. */
  lemma {:induction false} SortAscends<T>(entries: seq<Keyed<T>>)
    requires DistinctKeys(entries)
    ensures Ascending(Sort(entries))
  {
    if entries != [] {
      var front, last := entries[..|entries| - 1], entries[|entries| - 1];
      SortAscends(front);
      forall i | 0 <= i < |Sort(front)| ensures Sort(front)[i].key != last.key {
        SortMembers(front, Sort(front)[i]);
        var j :| 0 <= j < |front| && front[j] == Sort(front)[i];
        assert entries[j].key != last.key;
      }
      InsertAscends(last, Sort(front));
    }
  }

  lemma AscendingLast<T>(a: seq<Keyed<T>>, b: seq<Keyed<T>>)
    requires Ascending(a) && Ascending(b) && a != [] && b != []
    requires forall x :: x in a <==> x in b
    ensures a[|a| - 1] == b[|b| - 1]
  {
    var x, y := a[|a| - 1], b[|b| - 1];
    assert x in b && y in a;
    var j :| 0 <= j < |b| && b[j] == x;
    var i :| 0 <= i < |a| && a[i] == y;
    LessTotal(x.key, y.key);
  }

  /** Ascending entries are determined by their members. */
  lemma {:induction false} AscendingUnique<T>(a: seq<Keyed<T>>, b: seq<Keyed<T>>)
    requires Ascending(a) && Ascending(b) && forall x :: x in a <==> x in b
    ensures a == b
  {
    assert b != [] ==> b[0] in b;
    assert a != [] ==> a[0] in a;
    if a != [] {
      AscendingLast(a, b);
      var front, rest := a[..|a| - 1], b[..|b| - 1];
      forall x ensures x in front <==> x in rest {
        FrontMembers(a, x);
        FrontMembers(b, x);
      }
      AscendingUnique(front, rest);
    }
  }

  lemma FrontMembers<T>(a: seq<Keyed<T>>, x: Keyed<T>)
    requires Ascending(a) && a != []
    ensures x in a[..|a| - 1] <==> x in a && x != a[|a| - 1]
  {
    LessTotal(x.key, x.key);
  }

  // ---------------------------------------------------------------- rendering

  function HexDigit(n: nat): char
    requires n < 16
  {
    "0123456789abcdef"[n]
  }

  /** One scalar inside a JSON string, as section 7 of RFC 8259 requires and serde_json chooses. */
  function Escape(c: char): string {
    if c == '\"' then "\\\""
    else if c == '\\' then "\\\\"
    else if c == '\U{0008}' then "\\b"
    else if c == '\U{000C}' then "\\f"
    else if c == '\n' then "\\n"
    else if c == '\r' then "\\r"
    else if c == '\t' then "\\t"
    else if c as int < 32 then "\\u00" + [HexDigit(c as int / 16), HexDigit(c as int % 16)]
    else [c]
  }

  function EscapeAll(s: string): string {
    if s == "" then "" else Escape(s[0]) + EscapeAll(s[1..])
  }

  function Quote(s: string): string {
    "\"" + EscapeAll(s) + "\""
  }

  /** Texts from position `i` on, each but the very first after a comma. */
  function Listed(texts: seq<string>, i: nat): string
    requires i <= |texts|
    decreases |texts| - i
  {
    if i == |texts| then "" else (if i > 0 then "," else "") + texts[i] + Listed(texts, i + 1)
  }

  function Members(entries: seq<Keyed<string>>): seq<string> {
    seq(|entries|, i requires 0 <= i < |entries| => Quote(entries[i].key) + ":" + entries[i].item)
  }

  function RenderAll(items: seq<Value>): seq<string>
    decreases items
  {
    seq(|items|, i requires 0 <= i < |items| => Render(items[i]))
  }

  function RenderEach(entries: seq<Keyed<Value>>): seq<Keyed<string>>
    decreases entries
  {
    seq(|entries|, i requires 0 <= i < |entries| => Keyed(entries[i].key, Render(entries[i].item)))
  }

  /** The canonical text. */
  function Render(v: Value): string
    decreases v
  {
    match v
    case Null => "null"
    case Bool(b) => if b then "true" else "false"
    case Number(lexeme) => lexeme
    case Text(s) => Quote(s)
    case Array(items) => "[" + Listed(RenderAll(items), 0) + "]"
    case Object(entries) => "{" + Listed(Members(Sort(RenderEach(entries))), 0) + "}"
  }

  lemma {:induction false} InsertCommutes(e: Keyed<Value>, sorted: seq<Keyed<Value>>)
    ensures RenderEach(Insert(e, sorted)) == Insert(Keyed(e.key, Render(e.item)), RenderEach(sorted))
  {
    if sorted != [] {
      InsertCommutes(e, sorted[..|sorted| - 1]);
      assert RenderEach(sorted)[..|sorted| - 1] == RenderEach(sorted[..|sorted| - 1]);
    }
  }

  /** Sorting the entries and sorting their texts give the same texts. */
  lemma {:induction false} SortCommutes(entries: seq<Keyed<Value>>)
    ensures RenderEach(Sort(entries)) == Sort(RenderEach(entries))
    decreases |entries|
  {
    if entries != [] {
      var front := entries[..|entries| - 1];
      SortCommutes(front);
      assert RenderEach(entries)[..|entries| - 1] == RenderEach(front);
      InsertCommutes(entries[|entries| - 1], Sort(front));
    }
  }

  /** The text of position `i`, with its comma. */
  function Piece(texts: seq<string>, i: nat): string
    requires i < |texts|
  {
    (if i > 0 then "," else "") + texts[i]
  }

  lemma ListedStep(texts: seq<string>, i: nat, before: string)
    requires i < |texts|
    ensures before + Piece(texts, i) + Listed(texts, i + 1) == before + Listed(texts, i)
  {
  }

  lemma MemberText(entries: seq<Keyed<Value>>, i: nat)
    requires i < |entries|
    ensures Members(RenderEach(entries))[i] == Quote(entries[i].key) + ":" + Render(entries[i].item)
  {
  }

  /** `write_stable_json_value`: one growing output. */
  method WriteStableJson(value: Value, output: string) returns (out: string)
    ensures out == output + Render(value)
    decreases value, 1
  {
    match value {
      case Null => out := output + "null";
      case Bool(b) => out := output + if b then "true" else "false";
      case Number(lexeme) => out := output + lexeme;
      case Text(s) => out := output + Quote(s);
      case Array(_) => out := WriteArray(value, output);
      case Object(_) => out := WriteObject(value, output);
    }
  }

  method WriteArray(value: Value, output: string) returns (out: string)
    requires value.Array?
    ensures out == output + Render(value)
    decreases value, 0
  {
    var items := value.items;
    ghost var texts := RenderAll(items);
    out := output + "[";
    ghost var start := out;
    for i := 0 to |items|
      invariant out + Listed(texts, i) == start + Listed(texts, 0)
    {
      ListedStep(texts, i, out);
      ghost var before := out;
      if i > 0 {
        out := out + ",";
      }
      out := WriteStableJson(items[i], out);
      assert out == before + Piece(texts, i);
    }
    assert out == start + Listed(texts, 0);
    out := out + "]";
  }

  lemma PieceAppends(texts: seq<string>, i: nat, before: string, head: string, body: string)
    requires i < |texts| && texts[i] == head + body
    ensures before + (if i > 0 then "," else "") + head + body == before + Piece(texts, i)
  {
  }

  lemma ObjectText(entries: seq<Keyed<Value>>)
    ensures Render(Object(entries)) == "{" + Listed(Members(RenderEach(Sort(entries))), 0) + "}"
  {
    SortCommutes(entries);
  }

  method WriteMember(entry: Keyed<Value>, first: bool, output: string) returns (out: string)
    ensures out == output + (if first then "" else ",") + (Quote(entry.key) + ":") + Render(entry.item)
    decreases entry.item, 2
  {
    out := output;
    if !first {
      out := out + ",";
    }
    out := out + (Quote(entry.key) + ":");
    out := WriteStableJson(entry.item, out);
  }

  lemma SortedItemIsInside(value: Value, x: Keyed<Value>)
    requires value.Object? && x in Sort(value.entries)
    ensures x.item < value
  {
    SortMembers(value.entries, x);
    var k :| 0 <= k < |value.entries| && value.entries[k] == x;
  }

  lemma MemberStep(entries: seq<Keyed<Value>>, i: nat, before: string)
    requires i < |entries|
    ensures
      var texts := Members(RenderEach(entries));
      before + (if i == 0 then "" else ",") + (Quote(entries[i].key) + ":") + Render(entries[i].item)
        + Listed(texts, i + 1)
      == before + Listed(texts, i)
  {
    var texts := Members(RenderEach(entries));
    MemberText(entries, i);
    PieceAppends(texts, i, before, Quote(entries[i].key) + ":", Render(entries[i].item));
    ListedStep(texts, i, before);
  }

  /** Entries are sorted by key before they are written. */
  method WriteObject(value: Value, output: string) returns (out: string)
    requires value.Object?
    ensures out == output + Render(value)
    decreases value, 0
  {
    var entries := Sort(value.entries);
    ghost var all := "{" + Listed(Members(RenderEach(entries)), 0);
    out := output + "{";
    for i := 0 to |entries|
      invariant out + Listed(Members(RenderEach(entries)), i) == output + all
    {
      SortedItemIsInside(value, entries[i]);
      MemberStep(entries, i, out);
      out := WriteMember(entries[i], i == 0, out);
    }
    assert out == output + all;
    out := out + "}";
    ObjectText(value.entries);
  }

  method StableJson(value: Value) returns (text: string)
    ensures text == Render(value)
  {
    text := WriteStableJson(value, "");
  }
}
