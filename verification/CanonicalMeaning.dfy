/** Canonical text is JSON: read by the rules of RFC 8259 it is the value it was written for, with the
    shortest escapes and sorted names that RFC 8785 asks for. */
module CanonicalMeaning {
  import opened Digits
  import opened Numbers
  import opened Decimals
  import opened CanonicalNumbers
  import opened CanonicalJson
  import opened Utf16

  // ----- Reading strings -----

  /** The character after a backslash that stands for one, section 7 of RFC 8259. */
  function Letter(c: char): Option<char> {
    if c == '"' || c == '\\' || c == '/' then Some(c)
    else if c == 'b' then Some(0x8 as char)
    else if c == 'f' then Some(0xC as char)
    else if c == 'n' then Some(0xA as char)
    else if c == 'r' then Some(0xD as char)
    else if c == 't' then Some(0x9 as char)
    else None
  }

  function HexValue(c: char): Option<int> {
    if '0' <= c <= '9' then Some(c as int - '0' as int)
    else if 'a' <= c <= 'f' then Some(c as int - 'a' as int + 10)
    else if 'A' <= c <= 'F' then Some(c as int - 'A' as int + 10)
    else None
  }

  /** Four hex digits. */
  function HexUnit(s: string): Option<int>
    requires |s| == 4
  {
    var (a, b, c, d) := (HexValue(s[0]), HexValue(s[1]), HexValue(s[2]), HexValue(s[3]));
    if a.Some? && b.Some? && c.Some? && d.Some? then Some(((a.value * 16 + b.value) * 16 + c.value) * 16 + d.value) else None
  }

  /** The first character of a string's text and how much of the text it takes. */
  function ReadChar(s: string): (r: Option<(char, nat)>)
    ensures r.Some? ==> 0 < r.value.1 <= |s|
  {
    if s == "" || s[0] == '"' || s[0] as int < 0x20 then None
    else if s[0] != '\\' then Some((s[0], 1))
    else if |s| >= 2 && Letter(s[1]).Some? then Some((Letter(s[1]).value, 2))
    else if |s| >= 6 && s[1] == 'u' && HexUnit(s[2..6]).Some? && HexUnit(s[2..6]).value < 0xD800 then
      Some((HexUnit(s[2..6]).value as char, 6))
    else None
  }

  /** The string that stands between two quotation marks, surrogate escapes left out. */
  function ReadString(s: string): Option<string>
    decreases |s|
  {
    if s == "" then Some("")
    else
      var first := ReadChar(s);
      if first.None? then None
      else
        var rest := ReadString(s[first.value.1..]);
        if rest.None? then None else Some([first.value.0] + rest.value)
  }

  lemma {:induction false} HexReads(d: int)
    requires 0 <= d < 16
    ensures HexValue(Hex(d)) == Some(d) && Hex(d) != '"' && !('A' <= Hex(d) <= 'Z')
  {
  }

  lemma {:induction false} EscapeReads(c: char, u: string)
    ensures ReadChar(Escape(c) + u) == Some((c, |Escape(c)|)) && (Escape(c) + u)[|Escape(c)|..] == u
  {
    hide Hex;
    var (e, s, v) := (Escape(c), Escape(c) + u, c as int);
    if |e| == 6 {
      HexReads(v / 16);
      HexReads(v % 16);
      assert s[2..6] == ['0', '0', Hex(v / 16), Hex(v % 16)];
      assert v / 16 * 16 + v % 16 == v;
      assert s[0] == '\\' && s[1] == 'u';
    } else if |e| == 2 {
      assert s[0] == '\\' && s[1] == e[1];
    } else {
      assert s[0] == c;
    }
  }

  /** An escaped string is read back as itself. */
  lemma {:induction false} EscapeAllReads(s: string)
    ensures ReadString(EscapeAll(s)) == Some(s)
  {
    hide Escape, ReadChar;
    if s != "" {
      EscapeReads(s[0], EscapeAll(s[1..]));
      EscapeAllReads(s[1..]);
      assert s == [s[0]] + s[1..];
    }
  }

  lemma {:induction false} ReadsOne(e: string, c: char)
    requires ReadString(e) == Some([c])
    ensures ReadChar(e) == Some((c, |e|))
  {
    hide ReadChar;
    var first := ReadChar(e).value;
    var rest := ReadString(e[first.1..]);
    assert [first.0] + rest.value == [c] && ([first.0] + rest.value)[0] == first.0;
    assert |rest.value| == 0;
    assert e[first.1..] == "";
  }

  lemma {:induction false} EscapeLength(c: char, e: string)
    requires ReadChar(e) == Some((c, |e|))
    ensures |Escape(c)| <= |e|
  {
    hide HexUnit;
  }

  lemma {:induction false} LowerHex(c: char)
    ensures |Escape(c)| > 1 ==> forall x :: x in Escape(c) ==> !('A' <= x <= 'Z')
  {
    hide Hex;
    if |Escape(c)| == 6 {
      HexReads(c as int / 16);
      HexReads(c as int % 16);
    }
  }

  /** No other text that is read as the character is shorter, and hex digits are lower case. */
  lemma {:induction false} EscapeIsShortest(c: char, e: string)
    requires ReadString(e) == Some([c])
    ensures |Escape(c)| <= |e| && (|Escape(c)| > 1 ==> forall x :: x in Escape(c) ==> !('A' <= x <= 'Z'))
  {
    hide ReadString, ReadChar, Escape;
    ReadsOne(e, c);
    EscapeLength(c, e);
    LowerHex(c);
  }

  // ----- Reading values -----

  function Commas(ts: seq<string>): string {
    if ts == [] then "" else if |ts| == 1 then ts[0] else ts[0] + ("," + Commas(ts[1..]))
  }

  function Pairs(names: seq<string>, ts: seq<string>): seq<string>
    requires |names| == |ts|
  {
    seq(|names|, i requires 0 <= i < |names| => names[i] + (":" + ts[i]))
  }

  ghost predicate StringText(t: string, s: string) {
    exists e :: t == "\"" + (e + "\"") && ReadString(e) == Some(s)
  }

  predicate NumberTextOf(t: string, d: Double)
    requires ValidDouble(d)
  {
    match d
    case Zero => t == "0"
    case Finite(neg, digits, n) =>
      Scan(t).Some? && Value(Scan(t).value) == Real(if neg then 0 - Val(digits) else Val(digits), n - |digits|)
  }

  /** The text is the value's by the grammar of RFC 8259, with no white space and with the names of
      objects in ascending order. */
  ghost predicate Denotes(t: string, v: Json)
    requires ValidJson(v)
    decreases v, 1
  {
    match v
    case Null => t == "null"
    case Bool(b) => t == if b then "true" else "false"
    case Number(d) => NumberTextOf(t, d)
    case Str(s) => StringText(t, s)
    case Arr(items) => exists ts :: ItemTexts(ts, v) && t == "[" + (Commas(ts) + "]")
    case Obj(members) => exists keys, names, ts :: MemberTexts(keys, names, ts, v) && t == "{" + (Commas(Pairs(names, ts)) + "}")
  }

  ghost predicate ItemTexts(ts: seq<string>, v: Json)
    requires ValidJson(v) && v.Arr?
    decreases v, 0
  {
    |ts| == |v.items| && forall i :: 0 <= i < |ts| ==> Denotes(ts[i], v.items[i])
  }

  ghost predicate MemberTexts(keys: seq<string>, names: seq<string>, ts: seq<string>, v: Json)
    requires ValidJson(v) && v.Obj?
    decreases v, 0
  {
    Ascending(keys) && (forall k :: k in keys <==> k in v.members) && |names| == |keys| && |ts| == |keys| &&
    forall i :: 0 <= i < |keys| ==> StringText(names[i], keys[i]) && keys[i] in v.members && Denotes(ts[i], v.members[keys[i]])
  }

  lemma {:induction false} QuoteReads(s: string)
    ensures StringText(Quote(s), s)
  {
    hide EscapeAll, ReadString;
    EscapeAllReads(s);
    assert Quote(s) == "\"" + (EscapeAll(s) + "\"");
  }

  ghost function ItemCanons(v: Json, i: nat): (ts: seq<string>)
    requires ValidJson(v) && v.Arr? && i <= |v.items|
    ensures |ts| == |v.items| - i && forall k :: 0 <= k < |ts| ==> ts[k] == Canon(v.items[i + k])
  {
    seq(|v.items| - i, k requires 0 <= k < |v.items| - i => Canon(v.items[i + k]))
  }

  lemma {:induction false} ItemsAreCommas(v: Json, i: nat)
    requires ValidJson(v) && v.Arr? && i <= |v.items|
    ensures CanonItems(v, i) == if i == |v.items| then "" else Comma(i) + Commas(ItemCanons(v, i))
    decreases |v.items| - i
  {
    hide Canon;
    if i < |v.items| {
      ItemsAreCommas(v, i + 1);
      var ts := ItemCanons(v, i);
      assert ts[1..] == ItemCanons(v, i + 1);
      assert ts[0] == Canon(v.items[i]);
      if i + 1 == |v.items| {
        assert ts[0] + "" == ts[0];
      }
    }
  }

  ghost function NameTexts(keys: seq<string>): (ts: seq<string>)
    ensures |ts| == |keys| && forall k :: 0 <= k < |ts| ==> ts[k] == Quote(keys[k])
  {
    seq(|keys|, k requires 0 <= k < |keys| => Quote(keys[k]))
  }

  ghost function MemberCanons(v: Json, keys: seq<string>): (ts: seq<string>)
    requires ValidJson(v) && v.Obj? && forall k :: k in keys ==> k in v.members
    ensures |ts| == |keys| && forall k :: 0 <= k < |ts| ==> keys[k] in v.members && ts[k] == Canon(v.members[keys[k]])
  {
    seq(|keys|, k requires 0 <= k < |keys| => (assert keys[k] in keys; Canon(v.members[keys[k]])))
  }

  ghost function PairsFrom(v: Json, keys: seq<string>, i: nat): seq<string>
    requires ValidJson(v) && v.Obj? && i <= |keys| && forall k :: k in keys ==> k in v.members
  {
    Pairs(NameTexts(keys), MemberCanons(v, keys))[i..]
  }

  lemma {:induction false} FirstPair(v: Json, keys: seq<string>, i: nat)
    requires ValidJson(v) && v.Obj? && i < |keys| && forall k :: k in keys ==> k in v.members
    ensures var ps := PairsFrom(v, keys, i);
            keys[i] in v.members && |ps| == |keys| - i && ps[1..] == PairsFrom(v, keys, i + 1) &&
            ps[0] == Quote(keys[i]) + (":" + Canon(v.members[keys[i]]))
  {
    hide Canon, Quote;
    assert keys[i] in keys;
  }

  lemma {:induction false} CommasNext(ps: seq<string>, first: string, i: nat)
    requires ps != [] && ps[0] == first
    ensures first + (if |ps| == 1 then "" else Comma(i + 1) + Commas(ps[1..])) == Commas(ps)
  {
    assert first + "" == first;
  }

  lemma {:induction false} ThenMore(q: string, t: string, rest: string)
    ensures q + (":" + (t + rest)) == (q + (":" + t)) + rest
  {
    assert ":" + (t + rest) == (":" + t) + rest;
  }

  lemma {:induction false} MembersAreCommas(v: Json, keys: seq<string>, i: nat)
    requires ValidJson(v) && v.Obj? && i <= |keys| && forall k :: k in keys ==> k in v.members
    ensures CanonMembers(v, keys, i) == if i == |keys| then "" else Comma(i) + Commas(PairsFrom(v, keys, i))
    decreases |keys| - i
  {
    hide Canon, Quote, Comma, Commas, PairsFrom;
    if i < |keys| {
      assert keys[i] in keys;
      MembersAreCommas(v, keys, i + 1);
      FirstPair(v, keys, i);
      var ps := PairsFrom(v, keys, i);
      CommasNext(ps, ps[0], i);
      ThenMore(Quote(keys[i]), Canon(v.members[keys[i]]), CanonMembers(v, keys, i + 1));
    }
  }

  /** The canonical text of a value is its text by the grammar, names in ascending order. */
  lemma {:induction false} CanonDenotes(v: Json)
    requires ValidJson(v)
    ensures Denotes(Canon(v), v)
    decreases v
  {
    hide NumberText, Quote, CanonItems, CanonMembers, Commas, Pairs, StringText, Ascending, Scan, Value, Real, Val;
    match v {
      case Null =>
      case Bool(b) =>
      case Number(d) =>
        NumberReads(d);
      case Str(s) =>
        QuoteReads(s);
      case Arr(items) =>
        ItemsDenote(v);
      case Obj(members) =>
        MembersDenote(v);
    }
  }

  lemma {:induction false} NumberReads(d: Double)
    requires ValidDouble(d)
    ensures NumberTextOf(NumberText(d), d)
  {
    hide Scan, Value, Real, Val, PlaceDecimalPoint;
    if d.Finite? {
      NumberTextMeans(d.neg, d.digits, d.n);
    }
  }

  lemma {:induction false} ItemsDenote(v: Json)
    requires ValidJson(v) && v.Arr?
    ensures Denotes(Canon(v), v)
    decreases v, 0
  {
    hide Commas, CanonItems;
    var ts := ItemCanons(v, 0);
    ItemsAreCommas(v, 0);
    forall i | 0 <= i < |ts| ensures Denotes(ts[i], v.items[i]) {
      CanonDenotes(v.items[i]);
    }
    NoCommas();
    assert ItemTexts(ts, v);
    assert Canon(v) == "[" + (Commas(ts) + "]");
  }

  lemma {:induction false} NoCommas()
    ensures Commas([]) == "" && forall s: string :: Comma(0) + s == s
  {
  }

  lemma {:induction false} MembersDenote(v: Json)
    requires ValidJson(v) && v.Obj?
    ensures Denotes(Canon(v), v)
    decreases v, 0
  {
    hide Commas, CanonMembers, Pairs, Quote, StringText, Ascending;
    var keys := Sorted(v.members.Keys);
    var (names, ts) := (NameTexts(keys), MemberCanons(v, keys));
    MembersAreCommas(v, keys, 0);
    forall i | 0 <= i < |keys| ensures StringText(names[i], keys[i]) && keys[i] in v.members && Denotes(ts[i], v.members[keys[i]]) {
      QuoteReads(keys[i]);
      CanonDenotes(v.members[keys[i]]);
    }
    NoCommas();
    var ps := Pairs(names, ts);
    assert ps[0..] == ps;
    assert |keys| == 0 ==> ps == [] by { PairsLength(names, ts); }
    assert MemberTexts(keys, names, ts, v);
    assert Canon(v) == "{" + (Commas(ps) + "}");
  }

  lemma {:induction false} PairsLength(names: seq<string>, ts: seq<string>)
    requires |names| == |ts|
    ensures |Pairs(names, ts)| == |names|
  {
  }

  // ----- Octets -----

  /** The octets of a character are those of the table in section 3 of RFC 3629: how many, the marks in
      their high bits, and six bits of the value in each after the first. */
  lemma {:induction false} OctetsMean(c: char)
    ensures var (o, v) := (Octets(c), c as int);
            |o| == (if v <= 0x7F then 1 else if v <= 0x7FF then 2 else if v <= 0xFFFF then 3 else 4) &&
            (forall i :: 1 <= i < |o| ==> 0x80 <= o[i] <= 0xBF) &&
            (|o| == 1 ==> o[0] == v) &&
            (|o| == 2 ==> 0xC0 <= o[0] <= 0xDF && (o[0] - 0xC0) * 0x40 + (o[1] - 0x80) == v) &&
            (|o| == 3 ==> 0xE0 <= o[0] <= 0xEF && (o[0] - 0xE0) * 0x1000 + (o[1] - 0x80) * 0x40 + (o[2] - 0x80) == v) &&
            (|o| == 4 ==>
               0xF0 <= o[0] <= 0xF7 &&
               (o[0] - 0xF0) * 0x40000 + (o[1] - 0x80) * 0x1000 + (o[2] - 0x80) * 0x40 + (o[3] - 0x80) == v)
  {
    var v := c as int;
    DivMod(v);
    DivMod(v / 64);
    DivMod(v / 64 / 64);
  }
}
