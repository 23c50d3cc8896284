/** The canonical rendering is exact: two values share a text if and only if they are the same value. */
module JsonCanonical {
  import opened StableJson

  predicate IsNumberChar(c: char) {
    '0' <= c <= '9' || c == '-' || c == '+' || c == '.' || c == 'e' || c == 'E'
  }

  /** Lexemes are nonempty, built from number characters, and begin with a digit or a minus sign. */
  predicate IsLexeme(s: string) {
    s != "" && ('0' <= s[0] <= '9' || s[0] == '-') && forall i :: 0 <= i < |s| ==> IsNumberChar(s[i])
  }

  /** What a parsed or serialised value always satisfies: object keys are distinct at every depth. */
  predicate WellFormed(v: Value)
    decreases v
  {
    match v
    case Number(lexeme) => IsLexeme(lexeme)
    case Array(items) => forall i :: 0 <= i < |items| ==> WellFormed(items[i])
    case Object(entries) => DistinctKeys(entries) && forall i :: 0 <= i < |entries| ==> WellFormed(entries[i].item)
    case _ => true
  }

  /** The same value: equal leaves, arrays item by item, objects key by key in any order. */
  predicate Same(v: Value, w: Value)
    decreases v
  {
    match v
    case Array(a) => w.Array? && |a| == |w.items| && forall i :: 0 <= i < |a| ==> Same(a[i], w.items[i])
    case Object(e) =>
      && w.Object? && SameKeys(e, w.entries)
      && forall i, j :: 0 <= i < |e| && 0 <= j < |w.entries| && e[i].key == w.entries[j].key ==>
          Same(e[i].item, w.entries[j].item)
    case _ => v == w
  }

  predicate HasKey<T>(f: seq<Keyed<T>>, key: string) {
    exists j :: 0 <= j < |f| && f[j].key == key
  }

  predicate SameKeys<T>(e: seq<Keyed<T>>, f: seq<Keyed<T>>) {
    && (forall i :: 0 <= i < |e| ==> HasKey(f, e[i].key))
    && (forall j :: 0 <= j < |f| ==> HasKey(e, f[j].key))
  }

  // ---------------------------------------------------------------- entry order does not show

  predicate RenderAlike(e: seq<Keyed<Value>>, f: seq<Keyed<Value>>) {
    forall i, j :: 0 <= i < |e| && 0 <= j < |f| && e[i].key == f[j].key ==> Render(e[i].item) == Render(f[j].item)
  }

  lemma PairsTransfer(e: seq<Keyed<Value>>, f: seq<Keyed<Value>>, x: Keyed<string>)
    requires SameKeys(e, f) && RenderAlike(e, f) && x in RenderEach(e)
    ensures x in RenderEach(f)
  {
    var i :| 0 <= i < |e| && RenderEach(e)[i] == x;
    assert HasKey(f, e[i].key);
    var j :| 0 <= j < |f| && f[j].key == e[i].key;
    assert RenderEach(f)[j] == x;
  }

  /** Objects with the same rendered members sort to the same text. */
  lemma ObjectsRenderAlike(e: seq<Keyed<Value>>, f: seq<Keyed<Value>>)
    requires DistinctKeys(e) && DistinctKeys(f)
    requires SameKeys(e, f) && RenderAlike(e, f) && RenderAlike(f, e)
    ensures Sort(RenderEach(e)) == Sort(RenderEach(f))
  {
    var p, q := RenderEach(e), RenderEach(f);
    SortAscends(p);
    SortAscends(q);
    forall x ensures x in Sort(p) <==> x in Sort(q) {
      SortMembers(p, x);
      SortMembers(q, x);
      if x in p { PairsTransfer(e, f, x); }
      if x in q { PairsTransfer(f, e, x); }
    }
    AscendingUnique(Sort(p), Sort(q));
  }

  lemma ItemsRenderAlike(a: seq<Value>, b: seq<Value>)
    requires |a| == |b| && forall i :: 0 <= i < |a| ==> Render(a[i]) == Render(b[i])
    ensures Render(Array(a)) == Render(Array(b))
  {
    assert RenderAll(a) == RenderAll(b);
  }

  /** The rendering does not depend on entry order, at any depth. */
  lemma {:induction false} SameRendersAlike(v: Value, w: Value)
    requires WellFormed(v) && WellFormed(w) && Same(v, w)
    ensures Render(v) == Render(w)
    decreases v
  {
    match v {
      case Array(a) =>
        forall i | 0 <= i < |a| ensures Render(a[i]) == Render(w.items[i]) {
          SameRendersAlike(a[i], w.items[i]);
        }
        ItemsRenderAlike(a, w.items);
      case Object(e) =>
        var f := w.entries;
        forall i, j | 0 <= i < |e| && 0 <= j < |f| && e[i].key == f[j].key
          ensures Render(e[i].item) == Render(f[j].item) {
          SameRendersAlike(e[i].item, f[j].item);
        }
        ObjectsRenderAlike(e, f);
      case _ =>
    }
  }

  // ---------------------------------------------------------------- strings are delimited

  lemma HexDigitsDiffer(a: nat, b: nat)
    requires a < 16 && b < 16 && HexDigit(a) == HexDigit(b)
    ensures a == b
  {
  }

  predicate IsPlain(c: char) {
    c != '\"' && c != '\\' && c as int >= 32
  }

  lemma EscapePlain(c: char)
    ensures Escape(c) != "" && Escape(c)[0] != '\"'
    ensures IsPlain(c) ==> Escape(c) == [c]
    ensures !IsPlain(c) ==> Escape(c)[0] == '\\' && |Escape(c)| >= 2
    ensures !IsPlain(c) ==> (Escape(c)[1] == 'u' <==> |Escape(c)| == 6) && (|Escape(c)| == 2 || |Escape(c)| == 6)
  {
  }

  /** A two-character escape names its character. */
  function Unescaped(second: char): char {
    match second
    case 'b' => '\U{0008}'
    case 'f' => '\U{000C}'
    case 'n' => '\n'
    case 'r' => '\r'
    case 't' => '\t'
    case _ => second
  }

  lemma EscapeShort(c: char)
    requires !IsPlain(c) && |Escape(c)| == 2
    ensures Unescaped(Escape(c)[1]) == c
  {
  }

  lemma EscapeLong(c: char)
    requires !IsPlain(c) && |Escape(c)| == 6
    ensures c as int < 32 && Escape(c)[4] == HexDigit(c as int / 16) && Escape(c)[5] == HexDigit(c as int % 16)
  {
  }

  /** No escape is a prefix of another one's text. */
  lemma EscapeUnique(c: char, d: char, r: string, t: string)
    requires Escape(c) + r == Escape(d) + t
    ensures c == d && r == t
  {
    EscapePlain(c);
    EscapePlain(d);
    var whole := Escape(c) + r;
    assert whole[0] == Escape(c)[0] == Escape(d)[0];
    if !IsPlain(c) && !IsPlain(d) {
      assert whole[1] == Escape(c)[1] == Escape(d)[1];
      if |Escape(c)| == 2 {
        EscapeShort(c);
        EscapeShort(d);
      } else {
        EscapeLong(c);
        EscapeLong(d);
        assert whole[4] == Escape(c)[4] == Escape(d)[4];
        assert whole[5] == Escape(c)[5] == Escape(d)[5];
        HexDigitsDiffer(c as int / 16, d as int / 16);
        HexDigitsDiffer(c as int % 16, d as int % 16);
      }
    }
    assert r == whole[|Escape(c)|..] && t == whole[|Escape(d)|..];
  }

  /** Only the empty string's escaped text begins with the closing quote. */
  lemma EscapedFirst(s: string, r: string)
    ensures (EscapeAll(s) + "\"" + r)[0] == '\"' <==> s == ""
    ensures s == "" ==> (EscapeAll(s) + "\"" + r)[1..] == r
    ensures s != "" ==> EscapeAll(s) + "\"" + r == Escape(s[0]) + (EscapeAll(s[1..]) + "\"" + r)
  {
    if s != "" {
      EscapePlain(s[0]);
      Reassociate(Escape(s[0]), EscapeAll(s[1..]), "\"", r);
      assert (Escape(s[0]) + (EscapeAll(s[1..]) + "\"" + r))[0] == Escape(s[0])[0];
    } else {
      assert EscapeAll(s) + "\"" + r == "\"" + r;
    }
  }

  lemma Reassociate(x: string, y: string, z: string, r: string)
    ensures x + y + z + r == x + (y + z + r)
  {
  }

  lemma {:induction false} EscapedUnique(s: string, u: string, r: string, t: string)
    requires EscapeAll(s) + "\"" + r == EscapeAll(u) + "\"" + t
    ensures s == u && r == t
    decreases |s|
  {
    EscapedFirst(s, r);
    EscapedFirst(u, t);
    if s != "" {
      EscapeUnique(s[0], u[0], EscapeAll(s[1..]) + "\"" + r, EscapeAll(u[1..]) + "\"" + t);
      EscapedUnique(s[1..], u[1..], r, t);
      assert s == [s[0]] + s[1..] && u == [u[0]] + u[1..];
    }
  }

  lemma Unquoted(text: string, r: string)
    ensures ("\"" + text + "\"" + r)[1..] == text + "\"" + r
  {
  }

  lemma QuoteUnique(s: string, u: string, r: string, t: string)
    requires Quote(s) + r == Quote(u) + t
    ensures s == u && r == t
  {
    Unquoted(EscapeAll(s), r);
    Unquoted(EscapeAll(u), t);
    EscapedUnique(s, u, r, t);
  }

  // ---------------------------------------------------------------- values are delimited

  /** What can follow a value: nothing, a comma or a closing bracket. */
  predicate Delimited(r: string) {
    r == "" || r[0] == ',' || r[0] == ']' || r[0] == '}'
  }

  /** The first character tells the kind of value. */
  function KindOf(c: char): nat {
    if c == 'n' then 0 else if c == 't' then 1 else if c == 'f' then 2 else if c == '\"' then 4
    else if c == '[' then 5 else if c == '{' then 6 else 3
  }

  lemma FirstTellsKind(v: Value, r: string)
    requires WellFormed(v)
    ensures |Render(v)| > 0 && (Render(v) + r)[0] == Render(v)[0]
    ensures KindOf(Render(v)[0]) ==
            match v
            case Null => 0
            case Bool(b) => if b then 1 else 2
            case Number(_) => 3
            case Text(_) => 4
            case Array(_) => 5
            case Object(_) => 6
    ensures Render(v)[0] != ',' && Render(v)[0] != ']' && Render(v)[0] != '}'
  {
  }

  /** How far number characters reach. */
  function NumberRun(s: string): nat {
    if s == "" || !IsNumberChar(s[0]) then 0 else 1 + NumberRun(s[1..])
  }

  lemma {:induction false} LexemeRun(a: string, r: string)
    requires (forall i :: 0 <= i < |a| ==> IsNumberChar(a[i])) && Delimited(r)
    ensures NumberRun(a + r) == |a|
  {
    if a == "" {
      assert a + r == r;
    } else {
      assert (a + r)[1..] == a[1..] + r;
      LexemeRun(a[1..], r);
    }
  }

  lemma LexemeUnique(a: string, b: string, r: string, t: string)
    requires IsLexeme(a) && IsLexeme(b) && Delimited(r) && Delimited(t) && a + r == b + t
    ensures a == b && r == t
  {
    LexemeRun(a, r);
    LexemeRun(b, t);
    assert (a + r)[..|a|] == a && (b + t)[..|b|] == b;
    assert (a + r)[|a|..] == r && (b + t)[|b|..] == t;
  }

  /** The remaining items of an array, with the bracket that closes it. */
  function ItemsFrom(items: seq<Value>, i: nat): string
    requires i <= |items|
  {
    Listed(RenderAll(items), i) + "]"
  }

  lemma Regroup(comma: string, text: string, rest: string, close: string, r: string)
    ensures comma + text + rest + close + r == comma + (text + (rest + close + r))
  {
  }

  /** What follows position `i` begins with a comma or closes the list. */
  lemma ListedDelimits(texts: seq<string>, i: nat, close: string, r: string)
    requires 0 < i <= |texts| && (close == "]" || close == "}")
    ensures Delimited(Listed(texts, i) + close + r)
  {
    if i < |texts| {
      assert Listed(texts, i)[0] == ',';
    }
  }

  lemma ItemsStep(items: seq<Value>, i: nat, r: string)
    requires i < |items| && WellFormed(items[i])
    ensures ItemsFrom(items, i) + r == (if i > 0 then "," else "") + (Render(items[i]) + (ItemsFrom(items, i + 1) + r))
    ensures Delimited(ItemsFrom(items, i + 1) + r)
    ensures (ItemsFrom(items, i) + r)[0] != ']'
  {
    var texts := RenderAll(items);
    Regroup(if i > 0 then "," else "", texts[i], Listed(texts, i + 1), "]", r);
    ListedDelimits(texts, i + 1, "]", r);
    FirstTellsKind(items[i], ItemsFrom(items, i + 1) + r);
  }

  lemma ItemsEnd(items: seq<Value>, r: string)
    ensures ItemsFrom(items, |items|) + r == "]" + r
  {
  }

  /** Same prefix of commas, same rest. */
  lemma DropComma(i: nat, x: string, y: string)
    requires (if i > 0 then "," else "") + x == (if i > 0 then "," else "") + y
    ensures x == y
  {
    if i > 0 {
      assert ("," + x)[1..] == x && ("," + y)[1..] == y;
    } else {
      assert "" + x == x && "" + y == y;
    }
  }

  /** Equal remainders of two item lists end together or go on with the same text. */
  lemma ItemsAgree(a: seq<Value>, b: seq<Value>, i: nat, r: string, t: string)
    requires i <= |a| && i <= |b| && (i < |a| ==> WellFormed(a[i])) && (i < |b| ==> WellFormed(b[i]))
    requires ItemsFrom(a, i) + r == ItemsFrom(b, i) + t
    ensures i < |a| <==> i < |b|
    ensures i == |a| ==> r == t
    ensures i < |a| && i < |b| ==>
              && Render(a[i]) + (ItemsFrom(a, i + 1) + r) == Render(b[i]) + (ItemsFrom(b, i + 1) + t)
              && Delimited(ItemsFrom(a, i + 1) + r) && Delimited(ItemsFrom(b, i + 1) + t)
  {
    ItemsEnd(a, r);
    ItemsEnd(b, t);
    if i < |a| { ItemsStep(a, i, r); }
    if i < |b| { ItemsStep(b, i, t); }
    if i < |a| && i < |b| {
      DropComma(i, Render(a[i]) + (ItemsFrom(a, i + 1) + r), Render(b[i]) + (ItemsFrom(b, i + 1) + t));
    } else {
      assert ("]" + r)[1..] == r && ("]" + t)[1..] == t;
    }
  }

  /** From position `i` on, both lists hold the same values. */
  predicate SameItems(a: seq<Value>, b: seq<Value>, i: nat)
    requires i <= |a| == |b|
    decreases |a| - i
  {
    i == |a| || (Same(a[i], b[i]) && SameItems(a, b, i + 1))
  }

  lemma {:induction false} SameItemAt(a: seq<Value>, b: seq<Value>, i: nat, k: nat)
    requires i <= k < |a| == |b| && SameItems(a, b, i)
    ensures Same(a[k], b[k])
    decreases |a| - i
  {
    if i < k {
      SameItemAt(a, b, i + 1, k);
    }
  }

  /** Items are told apart one by one; `v` bounds them for the recursion. */
  lemma {:induction false} ItemsUnique(v: Value, a: seq<Value>, b: seq<Value>, i: nat, r: string, t: string)
    requires v == Array(a) && i <= |a| && i <= |b|
    requires forall k :: 0 <= k < |a| ==> WellFormed(a[k])
    requires forall k :: 0 <= k < |b| ==> WellFormed(b[k])
    requires ItemsFrom(a, i) + r == ItemsFrom(b, i) + t
    ensures |a| == |b| && r == t && SameItems(a, b, i)
    decreases v, 0, |a| - i
  {
    ItemsAgree(a, b, i, r, t);
    if i < |a| {
      TextsUnique(a[i], b[i], ItemsFrom(a, i + 1) + r, ItemsFrom(b, i + 1) + t);
      ItemsUnique(v, a, b, i + 1, r, t);
    }
  }

  /** The remaining members of an object in key order, with the brace that closes it. */
  function EntriesFrom(entries: seq<Keyed<Value>>, i: nat): string
    requires i <= |entries|
  {
    Listed(Members(RenderEach(entries)), i) + "}"
  }

  lemma RegroupMember(comma: string, key: string, text: string, rest: string, r: string)
    ensures comma + (key + ":" + text) + rest + "}" + r == comma + (key + (":" + (text + (rest + "}" + r))))
  {
  }

  lemma EntriesStep(entries: seq<Keyed<Value>>, i: nat, r: string)
    requires i < |entries|
    ensures EntriesFrom(entries, i) + r
            == (if i > 0 then "," else "")
              + (Quote(entries[i].key) + (":" + (Render(entries[i].item) + (EntriesFrom(entries, i + 1) + r))))
    ensures Delimited(EntriesFrom(entries, i + 1) + r)
    ensures (EntriesFrom(entries, i) + r)[0] != '}'
  {
    var texts := Members(RenderEach(entries));
    MemberText(entries, i);
    RegroupMember(if i > 0 then "," else "", Quote(entries[i].key), Render(entries[i].item), Listed(texts, i + 1), r);
    ListedDelimits(texts, i + 1, "}", r);
  }

  lemma EntriesEnd(entries: seq<Keyed<Value>>, r: string)
    ensures EntriesFrom(entries, |entries|) + r == "}" + r
  {
  }

  ghost predicate Inside(entries: seq<Keyed<Value>>, v: Value) {
    forall k :: 0 <= k < |entries| ==> entries[k].item < v && WellFormed(entries[k].item)
  }

  /** The key of a member is told apart from its value. */
  lemma KeysUnique(i: nat, key: string, other: string, x: string, y: string)
    requires (if i > 0 then "," else "") + (Quote(key) + (":" + x))
      == (if i > 0 then "," else "") + (Quote(other) + (":" + y))
    ensures key == other && x == y
  {
    DropComma(i, Quote(key) + (":" + x), Quote(other) + (":" + y));
    QuoteUnique(key, other, ":" + x, ":" + y);
    assert (":" + x)[1..] == x && (":" + y)[1..] == y;
  }

  /** Equal remainders of two member lists end together or go on with the same key and the same text. */
  lemma EntriesAgree(a: seq<Keyed<Value>>, b: seq<Keyed<Value>>, i: nat, r: string, t: string)
    requires i <= |a| && i <= |b|
    requires EntriesFrom(a, i) + r == EntriesFrom(b, i) + t
    ensures i < |a| <==> i < |b|
    ensures i == |a| ==> r == t
    ensures i < |a| && i < |b| ==>
              && a[i].key == b[i].key
              && Render(a[i].item) + (EntriesFrom(a, i + 1) + r) == Render(b[i].item) + (EntriesFrom(b, i + 1) + t)
              && Delimited(EntriesFrom(a, i + 1) + r) && Delimited(EntriesFrom(b, i + 1) + t)
  {
    EntriesEnd(a, r);
    EntriesEnd(b, t);
    if i < |a| { EntriesStep(a, i, r); }
    if i < |b| { EntriesStep(b, i, t); }
    if i < |a| && i < |b| {
      KeysUnique(i, a[i].key, b[i].key, Render(a[i].item) + (EntriesFrom(a, i + 1) + r), Render(b[i].item)
        + (EntriesFrom(b, i + 1) + t));
    } else {
      assert ("}" + r)[1..] == r && ("}" + t)[1..] == t;
    }
  }

  /** From position `i` on, both lists have the same keys and values. */
  predicate SameMembers(a: seq<Keyed<Value>>, b: seq<Keyed<Value>>, i: nat)
    requires i <= |a| == |b|
    decreases |a| - i
  {
    i == |a| || (a[i].key == b[i].key && Same(a[i].item, b[i].item) && SameMembers(a, b, i + 1))
  }

  lemma {:induction false} SameMemberAt(a: seq<Keyed<Value>>, b: seq<Keyed<Value>>, i: nat, k: nat)
    requires i <= k < |a| == |b| && SameMembers(a, b, i)
    ensures a[k].key == b[k].key && Same(a[k].item, b[k].item)
    decreases |a| - i
  {
    if i < k {
      SameMemberAt(a, b, i + 1, k);
    }
  }

  /** Members are told apart one by one; `v` bounds their values for the recursion. */
  lemma {:induction false} EntriesUnique(
    v: Value, a: seq<Keyed<Value>>, b: seq<Keyed<Value>>, i: nat, r: string, t: string)
    requires Inside(a, v) && i <= |a| && i <= |b|
    requires forall k :: 0 <= k < |b| ==> WellFormed(b[k].item)
    requires EntriesFrom(a, i) + r == EntriesFrom(b, i) + t
    ensures |a| == |b| && r == t && SameMembers(a, b, i)
    decreases v, 0, |a| - i
  {
    EntriesAgree(a, b, i, r, t);
    if i < |a| {
      assert a[i].item < v && WellFormed(a[i].item);
      TextsUnique(a[i].item, b[i].item, EntriesFrom(a, i + 1) + r, EntriesFrom(b, i + 1) + t);
      EntriesUnique(v, a, b, i + 1, r, t);
    }
  }

  lemma SortedInside(v: Value)
    requires v.Object? && WellFormed(v)
    ensures Inside(Sort(v.entries), v) && Ascending(Sort(v.entries)) && |Sort(v.entries)| == |v.entries|
  {
    SortAscends(v.entries);
    forall k | 0 <= k < |Sort(v.entries)| ensures Sort(v.entries)[k].item < v && WellFormed(Sort(v.entries)[k].item) {
      SortedItemIsInside(v, Sort(v.entries)[k]);
      SortMembers(v.entries, Sort(v.entries)[k]);
    }
    if v.entries != [] { SortMembers(v.entries, v.entries[0]); }
  }

  /** Entry by entry, the sorted members agree. */
  predicate SortedSame(e: seq<Keyed<Value>>, f: seq<Keyed<Value>>) {
    && |Sort(e)| == |Sort(f)|
    && forall k :: 0 <= k < |Sort(e)| ==> Sort(e)[k].key == Sort(f)[k].key && Same(Sort(e)[k].item, Sort(f)[k].item)
  }

  lemma SortedPosition(e: seq<Keyed<Value>>, i: nat) returns (k: nat)
    requires i < |e|
    ensures k < |Sort(e)| && Sort(e)[k] == e[i]
  {
    SortMembers(e, e[i]);
    k :| 0 <= k < |Sort(e)| && Sort(e)[k] == e[i];
  }

  lemma SortedKeyPresent(e: seq<Keyed<Value>>, k: nat)
    requires k < |Sort(e)|
    ensures HasKey(e, Sort(e)[k].key)
  {
    SortMembers(e, Sort(e)[k]);
    var i :| 0 <= i < |e| && e[i] == Sort(e)[k];
  }

  lemma SortedSameAt(e: seq<Keyed<Value>>, f: seq<Keyed<Value>>, i: nat, j: nat)
    requires SortedSame(e, f) && Ascending(Sort(f)) && i < |e| && j < |f| && e[i].key == f[j].key
    ensures Same(e[i].item, f[j].item)
  {
    var k := SortedPosition(e, i);
    var l := SortedPosition(f, j);
    LessTotal(f[j].key, f[j].key);
    assert Sort(f)[k].key == Sort(f)[l].key;
    assert k == l;
  }

  /** Members agreeing in sorted order are the same object. */
  lemma SortedAgree(e: seq<Keyed<Value>>, f: seq<Keyed<Value>>)
    requires SortedSame(e, f) && Ascending(Sort(f))
    ensures Same(Object(e), Object(f))
  {
    forall i | 0 <= i < |e| ensures HasKey(f, e[i].key) {
      var k := SortedPosition(e, i);
      SortedKeyPresent(f, k);
    }
    forall j | 0 <= j < |f| ensures HasKey(e, f[j].key) {
      var k := SortedPosition(f, j);
      SortedKeyPresent(e, k);
    }
    forall i, j | 0 <= i < |e| && 0 <= j < |f| && e[i].key == f[j].key ensures Same(e[i].item, f[j].item) {
      SortedSameAt(e, f, i, j);
    }
  }

  lemma DropOpening(open: string, body: string, close: string, r: string)
    requires |open| == 1
    ensures (open + body + close + r)[1..] == body + close + r
  {
  }

  lemma ArrayTail(items: seq<Value>, r: string)
    ensures (Render(Array(items)) + r)[1..] == ItemsFrom(items, 0) + r
  {
    DropOpening("[", Listed(RenderAll(items), 0), "]", r);
  }

  lemma ObjectTail(entries: seq<Keyed<Value>>, r: string)
    ensures (Render(Object(entries)) + r)[1..] == EntriesFrom(Sort(entries), 0) + r
  {
    ObjectText(entries);
    DropOpening("{", Listed(Members(RenderEach(Sort(entries))), 0), "}", r);
  }

  /** Two delimited texts that agree come from the same value, and what follows them agrees too. */
  lemma {:induction false} TextsUnique(v: Value, w: Value, r: string, t: string)
    requires WellFormed(v) && WellFormed(w) && Delimited(r) && Delimited(t)
    requires Render(v) + r == Render(w) + t
    ensures Same(v, w) && r == t
    decreases v, 1
  {
    FirstTellsKind(v, r);
    FirstTellsKind(w, t);
    match v {
      case Number(lexeme) => LexemeUnique(lexeme, w.lexeme, r, t);
      case Text(s) => QuoteUnique(s, w.s, r, t);
      case Array(items) =>
        ArrayTail(items, r);
        ArrayTail(w.items, t);
        ItemsUnique(v, items, w.items, 0, r, t);
        forall k | 0 <= k < |items| ensures Same(items[k], w.items[k]) {
          SameItemAt(items, w.items, 0, k);
        }
      case Object(entries) =>
        ObjectTail(entries, r);
        ObjectTail(w.entries, t);
        SortedInside(v);
        SortedInside(w);
        EntriesUnique(v, Sort(entries), Sort(w.entries), 0, r, t);
        forall k | 0 <= k < |Sort(entries)|
          ensures Sort(entries)[k].key == Sort(w.entries)[k].key && Same(Sort(entries)[k].item, Sort(w.entries)[k].item)
        {
          SameMemberAt(Sort(entries), Sort(w.entries), 0, k);
        }
        SortedAgree(entries, w.entries);
      case _ =>
        assert (Render(v) + r)[|Render(v)|..] == r && (Render(w) + t)[|Render(w)|..] == t;
    }
  }

  /** Canonical JSON is exact: texts are equal if and only if values are the same up to entry order. */
  lemma CanonicalJsonIsExact(v: Value, w: Value)
    requires WellFormed(v) && WellFormed(w)
    ensures Render(v) == Render(w) <==> Same(v, w)
  {
    if Same(v, w) {
      SameRendersAlike(v, w);
    }
    if Render(v) == Render(w) {
      assert Render(v) + "" == Render(v) && Render(w) + "" == Render(w);
      TextsUnique(v, w, "", "");
    }
  }
}
