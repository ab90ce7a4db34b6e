/** The writer of canonical JSON: it appends to one buffer, recursively. */
module CanonicalWriter {
  import opened CanonicalNumbers
  import opened CanonicalJson
  import opened Utf16

  class Buffer {
    var text: string

    constructor ()
      ensures text == ""
    {
      text := "";
    }

    method WriteCanonical(v: Json)
      requires ValidJson(v)
      modifies this
      ensures text == old(text) + Canon(v)
      decreases v, 1
    {
      hide CanonItems, CanonMembers, NumberText, EscapeAll, Sorted;
      match v {
        case Null => text := text + "null";
        case Bool(b) => text := text + BoolText(b);
        case Str(s) => WriteString(s);
        case Number(num) => text := text + NumberText(num);
        case Arr(_) => WriteArray(v);
        case Obj(_) => WriteObject(v);
      }
    }

    method WriteString(s: string)
      modifies this
      ensures text == old(text) + Quote(s)
    {
      hide Escape;
      text := text + "\"";
      assert s[0..] == s;
      for i := 0 to |s|
        invariant text + EscapeAll(s[i..]) == old(text) + "\"" + EscapeAll(s)
      {
        assert s[i..][0] == s[i] && s[i..][1..] == s[i + 1..];
        Regroup(text, Escape(s[i]), EscapeAll(s[i + 1..]));
        text := text + Escape(s[i]);
      }
      assert text + "" == text;
      QuoteParts(old(text), s);
      text := text + "\"";
    }

    method WriteArray(v: Json)
      requires ValidJson(v) && v.Arr?
      modifies this
      ensures text == old(text) + Canon(v)
      decreases v, 0
    {
      hide Canon, CanonItems;
      text := text + "[";
      for i := 0 to |v.items|
        invariant text + CanonItems(v, i) == old(text) + "[" + CanonItems(v, 0)
      {
        ghost var before := text;
        NextItem(v, i, before);
        if i > 0 {
          text := text + ",";
        }
        assert text == before + Comma(i);
        WriteCanonical(v.items[i]);
      }
      NoItems(v);
      LastItem(v, text);
      ArrayParts(v, old(text));
      text := text + "]";
    }

    /** writeCanonicalObject: the names in whatever order they come, sorted, then written. */
    method WriteObject(v: Json)
      requires ValidJson(v) && v.Obj?
      modifies this
      ensures text == old(text) + Canon(v)
      decreases v, 0
    {
      hide Canon, CanonMembers, Sorted, Quote, Insert, Ascending;
      var keys := SortedKeys(v.members.Keys);
      text := text + "{";
      for i := 0 to |keys|
        invariant text + CanonMembers(v, keys, i) == old(text) + "{" + CanonMembers(v, keys, 0)
      {
        ghost var before := text;
        assert keys[i] in keys;
        NextMember(v, keys, i, before);
        if i > 0 {
          text := text + ",";
        }
        assert text == before + Comma(i);
        WriteString(keys[i]);
        text := text + ":";
        WriteCanonical(v.members[keys[i]]);
      }
      LastMember(v, keys, text);
      ObjectParts(v, old(text));
      text := text + "}";
    }
  }

  /** The names of an object in an arbitrary order, then sorted. */
  method SortedKeys(names: set<string>) returns (keys: seq<string>)
    ensures keys == Sorted(names)
  {
    hide Insert, Ascending;
    var rest := names;
    var found: seq<string> := [];
    while rest != {}
      invariant rest <= names && forall k :: k in found <==> k in names && k !in rest
      decreases |rest|
    {
      var k :| k in rest;
      found := found + [k];
      rest := rest - {k};
    }
    keys := SortNames(found);
    AscendingUnique(keys, Sorted(names));
  }

  method SortNames(names: seq<string>) returns (keys: seq<string>)
    ensures Ascending(keys) && forall k :: k in keys <==> k in names
  {
    hide Insert, Ascending;
    keys := [];
    EmptyAscends();
    for i := 0 to |names|
      invariant Ascending(keys) && forall k :: k in keys <==> k in names[..i]
    {
      InsertAscends(names[i], keys);
      keys := Insert(names[i], keys);
      assert names[..i + 1] == names[..i] + [names[i]];
    }
    assert names[..|names|] == names;
  }

  // ----- The concatenations of the loops -----

  lemma {:induction false} QuoteParts(start: string, s: string)
    ensures start + "\"" + EscapeAll(s) + "\"" == start + Quote(s)
  {
    hide EscapeAll;
    Regroup(start + "\"", EscapeAll(s), "\"");
    Regroup(start, "\"", EscapeAll(s) + "\"");
  }

  lemma {:induction false} NextItem(v: Json, i: nat, text: string)
    requires ValidJson(v) && v.Arr? && i < |v.items|
    ensures text + CanonItems(v, i) == text + Comma(i) + Canon(v.items[i]) + CanonItems(v, i + 1)
  {
    hide Canon, Comma;
    var c, rest := Canon(v.items[i]), CanonItems(v, i + 1);
    Regroup(text + Comma(i), c, rest);
    Regroup(text, Comma(i), c + rest);
  }

  lemma {:induction false} LastItem(v: Json, text: string)
    requires ValidJson(v) && v.Arr?
    ensures text + CanonItems(v, |v.items|) == text
  {
    assert text + "" == text;
  }

  lemma {:induction false} ArrayParts(v: Json, start: string)
    requires ValidJson(v) && v.Arr?
    ensures start + "[" + CanonItems(v, 0) + "]" == start + Canon(v)
  {
    hide CanonItems;
    Regroup(start + "[", CanonItems(v, 0), "]");
    Regroup(start, "[", CanonItems(v, 0) + "]");
  }

  lemma {:induction false} NextMember(v: Json, keys: seq<string>, i: nat, text: string)
    requires ValidJson(v) && v.Obj? && i < |keys| && keys[i] in keys && forall k :: k in keys ==> k in v.members
    ensures text + CanonMembers(v, keys, i) ==
            text + Comma(i) + Quote(keys[i]) + ":" + Canon(v.members[keys[i]]) + CanonMembers(v, keys, i + 1)
  {
    hide Canon, Quote, Comma;
    var q, c, rest := Quote(keys[i]), Canon(v.members[keys[i]]), CanonMembers(v, keys, i + 1);
    Regroup(text + Comma(i) + q + ":", c, rest);
    Regroup(text + Comma(i) + q, ":", c + rest);
    Regroup(text + Comma(i), q, ":" + (c + rest));
    Regroup(text, Comma(i), q + (":" + (c + rest)));
  }

  lemma {:induction false} LastMember(v: Json, keys: seq<string>, text: string)
    requires ValidJson(v) && v.Obj? && forall k :: k in keys ==> k in v.members
    ensures text + CanonMembers(v, keys, |keys|) == text
  {
    assert text + "" == text;
  }

  lemma {:induction false} ObjectParts(v: Json, start: string)
    requires ValidJson(v) && v.Obj?
    ensures var keys := Sorted(v.members.Keys); start + "{" + CanonMembers(v, keys, 0) + "}" == start + Canon(v)
  {
    hide CanonMembers;
    var keys := Sorted(v.members.Keys);
    Regroup(start + "{", CanonMembers(v, keys, 0), "}");
    Regroup(start, "{", CanonMembers(v, keys, 0) + "}");
  }
}
