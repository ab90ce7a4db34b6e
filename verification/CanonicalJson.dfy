/** RFC 8785 canonical JSON (runtimes/go/jcs.go): what a manifest's signature covers. The text is a
    string of Unicode scalar values, written as UTF-8. */
module CanonicalJson {
  import opened Digits
  import opened CanonicalNumbers
  import opened Utf16

  /** A JSON value after parsing: member names are unique, numbers are doubles. */
  datatype Json = Null | Bool(b: bool) | Number(num: Double) | Str(s: string) | Arr(items: seq<Json>) | Obj(members: map<string, Json>)

  predicate ValidJson(v: Json) {
    match v
    case Number(num) => ValidDouble(num)
    case Arr(items) => forall i :: 0 <= i < |items| ==> ValidJson(items[i])
    case Obj(members) => forall k :: k in members ==> ValidJson(members[k])
    case _ => true
  }

  // ----- Strings -----

  function Hex(d: int): char
    requires 0 <= d < 16
  {
    if d < 10 then ('0' as int + d) as char else ('a' as int + (d - 10)) as char
  }

  /** The escapes of section 3.2.2.2: short forms where they exist, else lower-case hex. */
  function Escape(c: char): string {
    if c == '"' then "\\\""
    else if c == '\\' then "\\\\"
    else if c == '\U{08}' then "\\b"
    else if c == '\U{0C}' then "\\f"
    else if c == '\n' then "\\n"
    else if c == '\r' then "\\r"
    else if c == '\t' then "\\t"
    else if c as int < 0x20 then "\\u00" + [Hex(c as int / 16), Hex(c as int % 16)]
    else [c]
  }

  function EscapeAll(s: string): string {
    if s == "" then "" else Escape(s[0]) + EscapeAll(s[1..])
  }

  function Quote(s: string): string {
    "\"" + (EscapeAll(s) + "\"")
  }

  // ----- Values -----

  function BoolText(b: bool): string {
    if b then "true" else "false"
  }

  /** The canonical text of a value. */
  ghost function Canon(v: Json): string
    requires ValidJson(v)
    decreases v, 1, 0
  {
    match v
    case Null => "null"
    case Bool(b) => BoolText(b)
    case Number(num) => NumberText(num)
    case Str(s) => Quote(s)
    case Arr(items) => "[" + (CanonItems(v, 0) + "]")
    case Obj(members) => "{" + (CanonMembers(v, Sorted(members.Keys), 0) + "}")
  }

  function Comma(i: nat): string {
    if i > 0 then "," else ""
  }

  /** The elements from index i on, each after the first with a comma before it. */
  ghost function CanonItems(v: Json, i: nat): string
    requires ValidJson(v) && v.Arr? && i <= |v.items|
    decreases v, 0, |v.items| - i
  {
    if i == |v.items| then "" else Comma(i) + (Canon(v.items[i]) + CanonItems(v, i + 1))
  }

  ghost function CanonMembers(v: Json, keys: seq<string>, i: nat): string
    requires ValidJson(v) && v.Obj? && i <= |keys| && forall k :: k in keys ==> k in v.members
    decreases v, 0, |keys| - i
  {
    if i == |keys| then ""
    else
      assert keys[i] in keys;
      Comma(i) + (Quote(keys[i]) + (":" + (Canon(v.members[keys[i]]) + CanonMembers(v, keys, i + 1))))
  }

  /** canonicalJSONWithout: an object's top-level member of that name is left out. */
  function Without(v: Json, drop: string): Json {
    if v.Obj? && drop != "" then Obj(v.members - {drop}) else v
  }

  // ----- Reading strings back -----

  lemma {:induction false} EscapeShape(c: char, u: string)
    ensures var e := Escape(c);
            e != "" && e[0] != '"' && (e[0] == '\\' ==> |e| >= 2 && (|e| == 6 <==> e[1] == 'u') && (|e| == 2 || |e| == 6)) &&
            (e[0] != '\\' ==> e == [c])
  {
  }

  lemma {:induction false} EscapeInjective(c: char, d: char)
    requires Escape(c) == Escape(d)
    ensures c == d
  {
    if |Escape(c)| == 6 {
      var e, f := Escape(c), Escape(d);
      assert e[4] == f[4] && e[5] == f[5];
      HexInjective(c as int / 16, d as int / 16);
      HexInjective(c as int % 16, d as int % 16);
    } else if |Escape(c)| == 2 {
      assert Escape(c)[1] == Escape(d)[1];
    } else {
      assert Escape(c)[0] == Escape(d)[0];
    }
  }

  lemma {:induction false} HexInjective(a: int, b: int)
    requires 0 <= a < 16 && 0 <= b < 16 && Hex(a) == Hex(b)
    ensures a == b
  {
  }

  /** No escape is a prefix of another. */
  lemma {:induction false} EscapeDecodes(c: char, d: char, u: string, v: string)
    requires Escape(c) + u == Escape(d) + v
    ensures c == d && u == v
  {
    hide Escape;
    EscapeShape(c, u);
    EscapeShape(d, v);
    var e, f := Escape(c), Escape(d);
    assert (e + u)[0] == e[0] && (f + v)[0] == f[0];
    assert |e| >= 2 ==> (e + u)[1] == e[1];
    assert |f| >= 2 ==> (f + v)[1] == f[1];
    assert |e| == |f|;
    SplitSame(e, u, f, v);
    EscapeInjective(c, d);
  }

  lemma {:induction false} SplitSame<T>(a: seq<T>, u: seq<T>, b: seq<T>, v: seq<T>)
    requires a + u == b + v && |a| == |b|
    ensures a == b && u == v
  {
    assert a == (a + u)[..|a|] && u == (a + u)[|a|..];
    assert b == (b + v)[..|b|] && v == (b + v)[|b|..];
  }

  lemma {:induction false} StringDecodes(s: string, t: string, x: string, y: string)
    requires EscapeAll(s) + ("\"" + x) == EscapeAll(t) + ("\"" + y)
    ensures s == t && x == y
    decreases |s|
  {
    hide Escape;
    var q, r := "\"" + x, "\"" + y;
    FirstEscaped(s, q);
    FirstEscaped(t, r);
    if s == "" {
      assert t == "";
      assert "" + q == q && "" + r == r;
      SplitSame("\"", x, "\"", y);
    } else {
      Regroup(Escape(s[0]), EscapeAll(s[1..]), q);
      Regroup(Escape(t[0]), EscapeAll(t[1..]), r);
      EscapeDecodes(s[0], t[0], EscapeAll(s[1..]) + q, EscapeAll(t[1..]) + r);
      StringDecodes(s[1..], t[1..], x, y);
      assert s == [s[0]] + s[1..] && t == [t[0]] + t[1..];
    }
  }

  lemma {:induction false} FirstEscaped(s: string, q: string)
    requires q != "" && q[0] == '"'
    ensures EscapeAll(s) + q != "" && ((EscapeAll(s) + q)[0] == '"' <==> s == "")
  {
    hide Escape;
    if s != "" {
      EscapeShape(s[0], "");
      Regroup(Escape(s[0]), EscapeAll(s[1..]), q);
    }
  }

  lemma {:induction false} Regroup<T>(a: seq<T>, b: seq<T>, c: seq<T>)
    ensures (a + b) + c == a + (b + c)
  {
  }

  lemma {:induction false} QuoteDecodes(s: string, t: string, x: string, y: string)
    requires Quote(s) + x == Quote(t) + y
    ensures s == t && x == y
  {
    hide EscapeAll;
    QuoteThen(s, x);
    QuoteThen(t, y);
    SplitSame("\"", EscapeAll(s) + ("\"" + x), "\"", EscapeAll(t) + ("\"" + y));
    StringDecodes(s, t, x, y);
  }

  lemma {:induction false} QuoteThen(s: string, x: string)
    ensures Quote(s) + x == "\"" + (EscapeAll(s) + ("\"" + x))
  {
    hide EscapeAll;
    Regroup("\"", EscapeAll(s) + "\"", x);
    Regroup(EscapeAll(s), "\"", x);
  }

  // ----- Reading numbers back -----

  /** What may follow a value: nothing, or a delimiter. */
  predicate Delimited(x: string) {
    x == "" || x[0] in {',', ']', '}'}
  }

  lemma {:induction false} SpanDecodes(a: string, b: string, x: string, y: string)
    requires AllNumeric(a) && AllNumeric(b) && Delimited(x) && Delimited(y) && a + x == b + y
    ensures a == b && x == y
  {
    NotShorter(a, b, x, y);
    NotShorter(b, a, y, x);
    SplitSame(a, x, b, y);
  }

  lemma {:induction false} NotShorter(a: string, b: string, x: string, y: string)
    requires AllNumeric(b) && Delimited(x) && a + x == b + y
    ensures |a| >= |b|
  {
    assert forall i :: 0 <= i < |b| ==> (b + y)[i] == b[i] && b[i] in b;
    assert x != "" ==> (a + x)[|a|] == x[0];
    assert |a + x| == |a| + |x| && |b + y| == |b| + |y|;
  }

  lemma {:induction false} NumberDecodes(a: Double, b: Double, x: string, y: string)
    requires ValidDouble(a) && ValidDouble(b) && Delimited(x) && Delimited(y) && NumberText(a) + x == NumberText(b) + y
    ensures a == b && x == y
  {
    hide NumberText, AllNumeric, Delimited;
    NumberTextIsNumeric(a);
    NumberTextIsNumeric(b);
    SpanDecodes(NumberText(a), NumberText(b), x, y);
    NumberTextInjective(a, b);
  }

  // ----- Reading values back -----

  /** The first character tells the kind of a value. */
  function Lead(v: Json): char {
    match v
    case Null => 'n'
    case Bool(b) => if b then 't' else 'f'
    case Number(_) => '0'
    case Str(_) => '"'
    case Arr(_) => '['
    case Obj(_) => '{'
  }

  function Kind(c: char): char {
    if IsDigit(c) || c == '-' then '0' else c
  }

  lemma {:induction false} CanonLead(v: Json, x: string)
    requires ValidJson(v)
    ensures Canon(v) + x != "" && Kind((Canon(v) + x)[0]) == Lead(v) && Kind((Canon(v) + x)[0]) !in {',', ']', '}'}
  {
    hide CanonItems, CanonMembers, NumberText, EscapeAll;
    if v.Number? {
      NumberTextIsNumeric(v.num);
    }
    assert (Canon(v) + x)[0] == Canon(v)[0];
  }

  lemma {:induction false} ItemsTail(v: Json, i: nat, x: string)
    requires ValidJson(v) && v.Arr? && 0 < i <= |v.items|
    ensures Delimited(CanonItems(v, i) + ("]" + x))
  {
    hide Canon;
    if i < |v.items| {
      assert (CanonItems(v, i) + ("]" + x))[0] == ',';
    }
  }

  lemma {:induction false} MembersTail(v: Json, keys: seq<string>, i: nat, x: string)
    requires ValidJson(v) && v.Obj? && 0 < i <= |keys| && forall k :: k in keys ==> k in v.members
    ensures Delimited(CanonMembers(v, keys, i) + ("}" + x))
  {
    hide Canon, Quote;
    if i < |keys| {
      assert (CanonMembers(v, keys, i) + ("}" + x))[0] == ',';
    }
  }

  lemma {:induction false} ItemsFirst(v: Json, i: nat, x: string)
    requires ValidJson(v) && v.Arr? && i <= |v.items|
    ensures var t := CanonItems(v, i) + ("]" + x);
            t != "" && (t[0] == ']' <==> i == |v.items|) &&
            (i < |v.items| ==> t == Comma(i) + (Canon(v.items[i]) + (CanonItems(v, i + 1) + ("]" + x))))
  {
    hide Canon;
    if i < |v.items| {
      var c, rest := Canon(v.items[i]), CanonItems(v, i + 1);
      CanonLead(v.items[i], rest + ("]" + x));
      Regroup(Comma(i), c + rest, "]" + x);
      Regroup(c, rest, "]" + x);
      FirstAfter(Comma(i), c + (rest + ("]" + x)));
    }
  }

  lemma {:induction false} FirstAfter(a: string, b: string)
    requires b != ""
    ensures a + b != "" && (a + b)[0] == if a == "" then b[0] else a[0]
  {
  }

  lemma {:induction false} MembersFirst(v: Json, keys: seq<string>, i: nat, x: string)
    requires ValidJson(v) && v.Obj? && i <= |keys| && forall k :: k in keys ==> k in v.members
    ensures var t := CanonMembers(v, keys, i) + ("}" + x);
            t != "" && (t[0] == '}' <==> i == |keys|) &&
            (i < |keys| ==>
               keys[i] in keys &&
               t == Comma(i) + (Quote(keys[i]) + (":" + (Canon(v.members[keys[i]]) + (CanonMembers(v, keys, i + 1) + ("}" + x))))))
  {
    hide Canon, EscapeAll;
    if i < |keys| {
      assert keys[i] in keys;
      var q, c, rest := Quote(keys[i]), Canon(v.members[keys[i]]), CanonMembers(v, keys, i + 1);
      RegroupMember(Comma(i), q, c, rest, "}" + x);
      FirstAfter(Comma(i), q + (":" + (c + (rest + ("}" + x)))));
      FirstAfter(q, ":" + (c + (rest + ("}" + x))));
    }
  }

  lemma {:induction false} RegroupMember(m: string, q: string, c: string, rest: string, x: string)
    ensures (m + (q + (":" + (c + rest)))) + x == m + (q + (":" + (c + (rest + x))))
  {
    Regroup(m, q + (":" + (c + rest)), x);
    Regroup(q, ":" + (c + rest), x);
    Regroup(":", c + rest, x);
    Regroup(c, rest, x);
  }

  lemma {:induction false} ItemsDecode(a: Json, b: Json, i: nat, x: string, y: string)
    requires ValidJson(a) && a.Arr? && ValidJson(b) && b.Arr? && i <= |a.items| && i <= |b.items|
    requires CanonItems(a, i) + ("]" + x) == CanonItems(b, i) + ("]" + y)
    ensures a.items[i..] == b.items[i..] && x == y
    decreases a, 0, |a.items| - i
  {
    hide Canon, CanonItems;
    ItemsFirst(a, i, x);
    ItemsFirst(b, i, y);
    if i == |a.items| {
      NoItems(a);
      NoItems(b);
      SplitSame("]", x, "]", y);
    } else {
      var ta, tb := CanonItems(a, i + 1) + ("]" + x), CanonItems(b, i + 1) + ("]" + y);
      SplitSame(Comma(i), Canon(a.items[i]) + ta, Comma(i), Canon(b.items[i]) + tb);
      ItemsTail(a, i + 1, x);
      ItemsTail(b, i + 1, y);
      Decodes(a.items[i], b.items[i], ta, tb);
      ItemsDecode(a, b, i + 1, x, y);
      assert a.items[i..] == [a.items[i]] + a.items[i + 1..] && b.items[i..] == [b.items[i]] + b.items[i + 1..];
    }
  }

  lemma {:induction false} NoItems(v: Json)
    requires ValidJson(v) && v.Arr?
    ensures forall x: string :: CanonItems(v, |v.items|) + x == x
  {
    assert forall x: string :: "" + x == x;
  }

  lemma {:induction false} NoMembers(v: Json, keys: seq<string>)
    requires ValidJson(v) && v.Obj? && forall k :: k in keys ==> k in v.members
    ensures forall x: string :: CanonMembers(v, keys, |keys|) + x == x
  {
    assert forall x: string :: "" + x == x;
  }

  lemma {:induction false} MembersDecode(a: Json, b: Json, ka: seq<string>, kb: seq<string>, i: nat, x: string, y: string)
    requires ValidJson(a) && a.Obj? && i <= |ka| && forall k :: k in ka ==> k in a.members
    requires ValidJson(b) && b.Obj? && i <= |kb| && forall k :: k in kb ==> k in b.members
    requires CanonMembers(a, ka, i) + ("}" + x) == CanonMembers(b, kb, i) + ("}" + y)
    ensures ka[i..] == kb[i..] && x == y && forall k :: k in ka[i..] ==> k in a.members && k in b.members && a.members[k] == b.members[k]
    decreases a, 0, |ka| - i
  {
    hide Canon, CanonMembers, Quote;
    MembersFirst(a, ka, i, x);
    MembersFirst(b, kb, i, y);
    if i == |ka| {
      NoMembers(a, ka);
      NoMembers(b, kb);
      SplitSame("}", x, "}", y);
    } else {
      assert ka[i] in ka && kb[i] in kb;
      var va, vb := a.members[ka[i]], b.members[kb[i]];
      var ta, tb := CanonMembers(a, ka, i + 1) + ("}" + x), CanonMembers(b, kb, i + 1) + ("}" + y);
      SplitSame(Comma(i), Quote(ka[i]) + (":" + (Canon(va) + ta)), Comma(i), Quote(kb[i]) + (":" + (Canon(vb) + tb)));
      QuoteDecodes(ka[i], kb[i], ":" + (Canon(va) + ta), ":" + (Canon(vb) + tb));
      SplitSame(":", Canon(va) + ta, ":", Canon(vb) + tb);
      MembersTail(a, ka, i + 1, x);
      MembersTail(b, kb, i + 1, y);
      Decodes(va, vb, ta, tb);
      MembersDecode(a, b, ka, kb, i + 1, x, y);
      assert ka[i..] == [ka[i]] + ka[i + 1..] && kb[i..] == [kb[i]] + kb[i + 1..];
    }
  }

  /** The canonical text is uniquely decodable: a value's text, followed by nothing or by a
      delimiter, tells the value and where it ends. */
  lemma {:induction false} Decodes(a: Json, b: Json, x: string, y: string)
    requires ValidJson(a) && ValidJson(b) && Delimited(x) && Delimited(y) && Canon(a) + x == Canon(b) + y
    ensures a == b && x == y
    decreases a, 1, 0
  {
    hide CanonItems, CanonMembers, NumberText, Quote, Delimited;
    CanonLead(a, x);
    CanonLead(b, y);
    match a {
      case Null => SplitSame("null", x, "null", y);
      case Bool(s) => SplitSame(BoolText(s), x, BoolText(s), y);
      case Number(s) => NumberDecodes(s, b.num, x, y);
      case Str(s) => QuoteDecodes(s, b.s, x, y);
      case Arr(s) =>
        RegroupBracket("[", CanonItems(a, 0), "]", x);
        RegroupBracket("[", CanonItems(b, 0), "]", y);
        SplitSame("[", CanonItems(a, 0) + ("]" + x), "[", CanonItems(b, 0) + ("]" + y));
        ItemsDecode(a, b, 0, x, y);
        assert a.items[0..] == a.items && b.items[0..] == b.items;
      case Obj(s) => ObjectsDecode(a, b, x, y);
    }
  }

  lemma {:induction false} RegroupBracket(l: string, m: string, r: string, x: string)
    ensures (l + (m + r)) + x == l + (m + (r + x))
  {
    Regroup(l, m + r, x);
    Regroup(m, r, x);
  }

  lemma {:induction false} ObjectsDecode(a: Json, b: Json, x: string, y: string)
    requires ValidJson(a) && ValidJson(b) && a.Obj? && b.Obj? && Canon(a) + x == Canon(b) + y
    ensures a == b && x == y
    decreases a, 0, |Sorted(a.members.Keys)| + 1
  {
    hide CanonMembers;
    var ka, kb := Sorted(a.members.Keys), Sorted(b.members.Keys);
    RegroupBracket("{", CanonMembers(a, ka, 0), "}", x);
    RegroupBracket("{", CanonMembers(b, kb, 0), "}", y);
    SplitSame("{", CanonMembers(a, ka, 0) + ("}" + x), "{", CanonMembers(b, kb, 0) + ("}" + y));
    MembersDecode(a, b, ka, kb, 0, x, y);
    assert ka[0..] == ka && kb[0..] == kb;
    assert a.members.Keys == b.members.Keys by {
      assert forall k :: k in a.members <==> k in ka;
      assert forall k :: k in b.members <==> k in kb;
    }
    assert a.members == b.members;
  }

  /** Two values have the same canonical text exactly when they are equal. */
  lemma {:induction false} CanonIsInjective(a: Json, b: Json)
    requires ValidJson(a) && ValidJson(b)
    ensures Canon(a) == Canon(b) <==> a == b
  {
    hide Canon;
    if Canon(a) == Canon(b) {
      assert Canon(a) + "" == Canon(b) + "";
      Decodes(a, b, "", "");
    }
  }

  /** The bytes that are signed: canonicalJSONWithout of a parsed value. */
  ghost function SignedBytes(v: Json): seq<int>
    requires ValidJson(v)
  {
    Utf8(Canon(Without(v, "signatures")))
  }

  /** The signed bytes of a manifest determine every member except the signatures: two objects
      have the same ones exactly when they agree on all the others. */
  lemma {:induction false} SignedBytesDetermine(a: Json, b: Json)
    requires ValidJson(a) && ValidJson(b) && a.Obj? && b.Obj?
    ensures SignedBytes(a) == SignedBytes(b) <==>
            forall k :: k != "signatures" ==>
              (k in a.members <==> k in b.members) && (k in a.members ==> a.members[k] == b.members[k])
  {
    hide Canon, Utf8;
    var s, t := Without(a, "signatures"), Without(b, "signatures");
    CanonIsInjective(s, t);
    if SignedBytes(a) == SignedBytes(b) {
      Utf8Injective(Canon(s), Canon(t));
    }
    if s == t {
      assert forall k :: k != "signatures" ==> (k in a.members <==> k in s.members) && (k in b.members <==> k in t.members);
      assert forall k :: k in s.members ==> s.members[k] == a.members[k] && t.members[k] == b.members[k];
    } else {
      assert s.members != t.members;
    }
  }

  // ----- UTF-8 -----

  /** RFC 3629: six bits a continuation octet, the rest in the first. */
  function Octets(c: char): seq<int> {
    var v := c as int;
    var w := v / 64;
    var u := w / 64;
    if v < 0x80 then [v]
    else if v < 0x800 then [0xC0 + w, 0x80 + v % 64]
    else if v < 0x10000 then [0xE0 + u, 0x80 + w % 64, 0x80 + v % 64]
    else [0xF0 + u / 64, 0x80 + u % 64, 0x80 + w % 64, 0x80 + v % 64]
  }

  /** The scalar value that octets carry. */
  function Carried(o: seq<int>): int
    requires 1 <= |o| <= 4
  {
    if |o| == 1 then o[0]
    else if |o| == 2 then (o[0] - 0xC0) * 64 + (o[1] - 0x80)
    else if |o| == 3 then ((o[0] - 0xE0) * 64 + (o[1] - 0x80)) * 64 + (o[2] - 0x80)
    else (((o[0] - 0xF0) * 64 + (o[1] - 0x80)) * 64 + (o[2] - 0x80)) * 64 + (o[3] - 0x80)
  }

  lemma {:induction false} OctetsCarry(c: char)
    ensures 1 <= |Octets(c)| <= 4 && Carried(Octets(c)) == c as int
  {
    var v := c as int;
    DivMod(v);
    DivMod(v / 64);
    DivMod(v / 64 / 64);
  }

  lemma {:induction false} DivMod(v: int)
    ensures v == v / 64 * 64 + v % 64
  {
  }

  function Utf8(s: string): seq<int> {
    if s == "" then [] else Octets(s[0]) + Utf8(s[1..])
  }

  lemma {:induction false} OctetsLength(c: char)
    ensures var o := Octets(c);
            1 <= |o| <= 4 && (|o| == 1 <==> o[0] < 0x80) && (|o| == 2 <==> 0xC0 <= o[0] < 0xE0) &&
            (|o| == 3 <==> 0xE0 <= o[0] < 0xF0) && (|o| == 4 <==> 0xF0 <= o[0])
  {
  }

  lemma {:induction false} OctetsInjective(c: char, d: char)
    requires Octets(c) == Octets(d)
    ensures c == d
  {
    hide Octets, Carried;
    OctetsCarry(c);
    OctetsCarry(d);
  }

  lemma {:induction false} Utf8Injective(a: string, b: string)
    requires Utf8(a) == Utf8(b)
    ensures a == b
  {
    hide Octets;
    if a != "" && b != "" {
      OctetsLength(a[0]);
      OctetsLength(b[0]);
      assert Utf8(a)[0] == Octets(a[0])[0] && Utf8(b)[0] == Octets(b[0])[0];
      SplitSame(Octets(a[0]), Utf8(a[1..]), Octets(b[0]), Utf8(b[1..]));
      OctetsInjective(a[0], b[0]);
      Utf8Injective(a[1..], b[1..]);
      assert a == [a[0]] + a[1..] && b == [b[0]] + b[1..];
    } else if a != "" {
      OctetsLength(a[0]);
    } else if b != "" {
      OctetsLength(b[0]);
    }
  }
}
