/** Locale tags, RFC 4647 lookup (runtimes/go/locale.go) and the locales of a release manifest
    (runtimes/go/manifest.go). */
module Locales {
  import opened Digits
  import opened Lists

  // ----- Tags and their truncations -----

  function Split(s: string): (r: seq<string>)
    ensures r != [] && '-' !in r[0]
  {
    if s == "" then [""]
    else
      var rest := Split(s[1..]);
      if s[0] == '-' then [""] + rest else [[s[0]] + rest[0]] + rest[1..]
  }

  function Join(subtags: seq<string>): string {
    if subtags == [] then ""
    else if |subtags| == 1 then subtags[0]
    else subtags[0] + "-" + Join(subtags[1..])
  }

  /** The prefixes of fewer than n subtags, longest first, that do not end in a single-character
      subtag: the countdown of truncations. */
  function Prefixes(subtags: seq<string>, n: nat): seq<seq<string>>
    requires n <= |subtags|
  {
    if n <= 1 then []
    else if |subtags[n - 2]| == 1 then Prefixes(subtags, n - 1)
    else [subtags[..n - 1]] + Prefixes(subtags, n - 1)
  }

  function JoinAll(prefixes: seq<seq<string>>): (r: seq<string>)
    ensures |r| == |prefixes| && forall i :: 0 <= i < |r| ==> r[i] == Join(prefixes[i])
  {
    seq(|prefixes|, i requires 0 <= i < |prefixes| => Join(prefixes[i]))
  }

  function Truncations(tag: string): seq<string> {
    JoinAll(Prefixes(Split(tag), |Split(tag)|))
  }

  method ComputeTruncations(tag: string) returns (r: seq<string>)
    ensures r == Truncations(tag)
  {
    hide Split, Join, Prefixes;
    r := [];
    var subtags := Split(tag);
    var n := |subtags| - 1;
    while n > 0
      invariant 0 <= n < |subtags|
      invariant r + JoinAll(Prefixes(subtags, n + 1)) == Truncations(tag)
    {
      NextPrefix(subtags, n + 1, r);
      if |subtags[n - 1]| != 1 {
        r := r + [Join(subtags[..n])];
      }
      n := n - 1;
    }
    NoPrefix(subtags);
  }

  lemma {:induction false} NoPrefix(subtags: seq<string>)
    requires subtags != []
    ensures Prefixes(subtags, 1) == []
  {
  }

  lemma {:induction false} NextPrefix(subtags: seq<string>, n: nat, r: seq<string>)
    requires 2 <= n <= |subtags|
    ensures r + JoinAll(Prefixes(subtags, n)) ==
            (if |subtags[n - 2]| == 1 then r else r + [Join(subtags[..n - 1])]) + JoinAll(Prefixes(subtags, n - 1))
  {
    hide Join;
    var rest := Prefixes(subtags, n - 1);
    if |subtags[n - 2]| != 1 {
      assert JoinAll([subtags[..n - 1]] + rest) == [Join(subtags[..n - 1])] + JoinAll(rest);
    }
  }

  /** Section 3.4 of RFC 4647: drop the last subtag, and with it a single-character subtag left
      at the end, until nothing is left. */
  function DropTrailingSingles(subtags: seq<string>): (r: seq<string>)
    ensures r <= subtags && (r != [] ==> |r[|r| - 1]| != 1)
  {
    if subtags != [] && |subtags[|subtags| - 1]| == 1 then DropTrailingSingles(subtags[..|subtags| - 1]) else subtags
  }

  function Rfc4647Fallbacks(subtags: seq<string>): seq<seq<string>>
    decreases |subtags|
  {
    if subtags == [] then []
    else
      var shorter := DropTrailingSingles(subtags[..|subtags| - 1]);
      if shorter == [] then [] else [shorter] + Rfc4647Fallbacks(shorter)
  }

  lemma {:induction false} PrefixesOfPrefix(subtags: seq<string>, m: nat, n: nat)
    requires n <= m <= |subtags|
    ensures Prefixes(subtags[..m], n) == Prefixes(subtags, n)
  {
    if n > 1 {
      PrefixesOfPrefix(subtags, m, n - 1);
      assert subtags[..m][..n - 1] == subtags[..n - 1];
    }
  }

  lemma {:induction false} DropThenPrefixes(subtags: seq<string>)
    ensures var d := DropTrailingSingles(subtags);
            Prefixes(subtags + ["xx"], |subtags| + 1) == if d == [] then [] else [d] + Prefixes(d, |d|)
  {
    var s := subtags + ["xx"];
    var n := |subtags|;
    if n > 0 {
      assert s[n - 1] == subtags[n - 1];
      if |subtags[n - 1]| == 1 {
        var u := subtags[..n - 1];
        DropThenPrefixes(u);
        assert s[..n] == subtags;
        PrefixesOfPrefix(s, n, n);
        PrefixesOfPrefix(u + ["xx"], n - 1, n - 1);
        PrefixesOfPrefix(subtags, n - 1, n - 1);
        assert (u + ["xx"])[..n - 1] == u == subtags[..n - 1];
        if n >= 2 {
          assert (u + ["xx"])[n - 2] == subtags[n - 2];
          assert (u + ["xx"])[..n - 1] == subtags[..n - 1];
        }
      } else {
        assert s[..n] == subtags;
        PrefixesOfPrefix(s, n, n);
      }
    }
  }

  /** truncations computes the fallbacks of RFC 4647, which skips single-character subtags
      together with the subtag after them. */
  lemma {:induction false} TruncationsAreRfc4647(subtags: seq<string>)
    requires subtags != []
    ensures Prefixes(subtags, |subtags|) == Rfc4647Fallbacks(subtags)
    decreases |subtags|
  {
    var n := |subtags| - 1;
    var u := subtags[..n];
    DropThenPrefixes(u);
    PrefixesOfPrefix(subtags, n, n);
    PrefixesOfPrefix(u + ["xx"], n, n);
    assert (u + ["xx"])[..n] == u;
    assert Prefixes(u + ["xx"], n + 1) == Prefixes(subtags, n + 1) by {
      if n >= 1 {
        assert (u + ["xx"])[n - 1] == subtags[n - 1];
        assert (u + ["xx"])[..n] == subtags[..n];
      }
    }
    var d := DropTrailingSingles(u);
    if d != [] {
      TruncationsAreRfc4647(d);
    }
  }

  // ----- Truncations as cuts of the tag -----

  /** The subtags are the parts of the tag between its hyphens. */
  lemma {:induction false} SplitJoins(tag: string)
    ensures Join(Split(tag)) == tag && forall i :: 0 <= i < |Split(tag)| ==> '-' !in Split(tag)[i]
  {
    if tag != "" {
      var rest := Split(tag[1..]);
      SplitJoins(tag[1..]);
      assert tag == [tag[0]] + tag[1..];
      if tag[0] == '-' {
        assert ([""] + rest)[1..] == rest;
        assert "" + "-" + Join(rest) == "-" + tag[1..];
      } else {
        var r := [[tag[0]] + rest[0]] + rest[1..];
        assert r[1..] == rest[1..];
        assert |rest| > 1 ==> [tag[0]] + rest[0] + "-" + Join(rest[1..]) == [tag[0]] + (rest[0] + "-" + Join(rest[1..]));
      }
    }
  }

  predicate Hyphenless(subtags: seq<string>) {
    forall i :: 0 <= i < |subtags| ==> '-' !in subtags[i]
  }

  lemma {:induction false} JoinCut(subtags: seq<string>, k: nat)
    requires 1 <= k < |subtags|
    ensures Join(subtags) == Join(subtags[..k]) + "-" + Join(subtags[k..])
  {
    if k == 1 {
      assert subtags[..1] == [subtags[0]];
    } else {
      JoinCut(subtags[1..], k - 1);
      assert subtags[1..][..k - 1] == subtags[..k][1..] && subtags[1..][k - 1..] == subtags[k..];
      var (a, b, c) := (subtags[0], Join(subtags[..k][1..]), Join(subtags[k..]));
      assert a + "-" + (b + "-" + c) == (a + "-" + b) + "-" + c;
    }
  }

  /** A hyphen of the joined tag stands between two subtags. */
  lemma {:induction false} CutAt(subtags: seq<string>, i: nat) returns (k: nat)
    requires subtags != [] && Hyphenless(subtags) && i < |Join(subtags)| && Join(subtags)[i] == '-'
    ensures 1 <= k < |subtags| && |Join(subtags[..k])| == i
  {
    var n := |subtags[0]|;
    assert n <= |Join(subtags)| && forall j :: 0 <= j < n ==> Join(subtags)[j] == subtags[0][j];
    if i == n {
      k := 1;
      assert subtags[..1] == [subtags[0]];
    } else {
      var rest := subtags[1..];
      assert Join(subtags)[i] == Join(rest)[i - n - 1];
      var j := CutAt(rest, i - n - 1);
      k := j + 1;
      assert rest[..j] == subtags[..k][1..];
    }
  }

  /** A single character stands between the hyphen at i and the one before it, or the start. */
  predicate SingleBefore(tag: string, i: nat)
    requires i <= |tag|
  {
    i >= 1 && tag[i - 1] != '-' && (i == 1 || tag[i - 2] == '-')
  }

  /** A place where lookup may cut a tag: at a hyphen that ends no single-character subtag. */
  predicate Cut(tag: string, i: int) {
    0 <= i < |tag| && tag[i] == '-' && !SingleBefore(tag, i)
  }

  lemma {:induction false} LastSubtag(subtags: seq<string>)
    requires subtags != [] && Hyphenless(subtags)
    ensures var t := Join(subtags); SingleBefore(t, |t|) <==> |subtags[|subtags| - 1]| == 1
  {
    hide Join, Hyphenless, SingleBefore;
    var k := |subtags| - 1;
    var last := subtags[k];
    NoHyphen(subtags, k);
    JoinOne(last);
    if k == 0 {
      assert subtags == [last];
      EndsWith("", last);
      assert "" + last == last;
    } else {
      JoinCut(subtags, k);
      assert subtags[k..] == [last];
      EndsWith(Join(subtags[..k]) + "-", last);
    }
  }

  lemma {:induction false} EndsWith(start: string, last: string)
    requires '-' !in last && (start == "" || start[|start| - 1] == '-')
    ensures var t := start + last; SingleBefore(t, |t|) <==> |last| == 1
  {
    var t := start + last;
    assert forall j :: 0 <= j < |last| ==> t[|start| + j] == last[j] && t[|start| + j] != '-';
    assert start != "" ==> t[|start| - 1] == '-';
  }

  lemma {:induction false} NoHyphen(subtags: seq<string>, i: nat)
    requires Hyphenless(subtags) && i < |subtags|
    ensures '-' !in subtags[i]
  {
  }

  lemma {:induction false} JoinOne(s: string)
    ensures Join([s]) == s
  {
  }

  lemma {:induction false} CutOfPrefix(tag: string, subtags: seq<string>, k: nat)
    requires 1 <= k < |subtags| && Hyphenless(subtags) && Join(subtags) == tag
    ensures var i := |Join(subtags[..k])|;
            i < |tag| && tag[i] == '-' && tag[..i] == Join(subtags[..k]) && (Cut(tag, i) <==> |subtags[k - 1]| != 1)
  {
    hide Join;
    JoinCut(subtags, k);
    var t := Join(subtags[..k]);
    LastSubtag(subtags[..k]);
    assert tag[..|t|] == t && tag[|t|] == '-';
    assert SingleBefore(tag, |t|) == SingleBefore(t, |t|) by {
      assert forall j :: 0 <= j < |t| ==> tag[j] == t[j];
    }
  }

  predicate UpTo(tag: string, i: int, t: string) {
    0 <= i <= |tag| && t == tag[..i]
  }

  /** The first k subtags, for some k below n, unless the last of them is a single character. */
  ghost predicate Kept(subtags: seq<string>, n: nat, p: seq<string>)
    requires n <= |subtags|
  {
    exists k :: KeptAt(subtags, n, k, p)
  }

  predicate KeptAt(subtags: seq<string>, n: nat, k: int, p: seq<string>)
    requires n <= |subtags|
  {
    1 <= k < n && |subtags[k - 1]| != 1 && p == subtags[..k]
  }

  lemma {:induction false} PrefixesAre(subtags: seq<string>, n: nat)
    requires n <= |subtags|
    ensures forall p :: p in Prefixes(subtags, n) <==> Kept(subtags, n, p)
  {
    hide Kept;
    if n <= 1 {
      forall p ensures !Kept(subtags, n, p) {
        KeptNext(subtags, n, p);
      }
    } else {
      PrefixesAre(subtags, n - 1);
      var r, rest := Prefixes(subtags, n), Prefixes(subtags, n - 1);
      forall p ensures p in r <==> Kept(subtags, n, p) {
        KeptNext(subtags, n, p);
        assert p in r <==> p in rest || (|subtags[n - 2]| != 1 && p == subtags[..n - 1]);
      }
    }
  }

  predicate Shrinking(r: seq<seq<string>>) {
    forall i, j :: 0 <= i < j < |r| ==> |r[i]| > |r[j]|
  }

  lemma {:induction false} PrefixesShrink(subtags: seq<string>, n: nat)
    requires n <= |subtags|
    ensures Shrinking(Prefixes(subtags, n)) && forall i :: 0 <= i < |Prefixes(subtags, n)| ==> |Prefixes(subtags, n)[i]| < n
  {
    if n > 1 {
      PrefixesShrink(subtags, n - 1);
      ShrinkingCons(subtags[..n - 1], Prefixes(subtags, n - 1));
    }
  }

  lemma {:induction false} ShrinkingCons(first: seq<string>, rest: seq<seq<string>>)
    requires Shrinking(rest) && forall i :: 0 <= i < |rest| ==> |rest[i]| < |first|
    ensures Shrinking([first] + rest)
  {
  }

  lemma {:induction false} KeptNext(subtags: seq<string>, n: nat, p: seq<string>)
    requires n <= |subtags|
    ensures n <= 1 ==> !Kept(subtags, n, p)
    ensures n > 1 ==> (Kept(subtags, n, p) <==> Kept(subtags, n - 1, p) || (|subtags[n - 2]| != 1 && p == subtags[..n - 1]))
    ensures Kept(subtags, n, p) ==> |p| < n
  {
    if n > 1 {
      assert KeptAt(subtags, n, n - 1, p) <==> |subtags[n - 2]| != 1 && p == subtags[..n - 1];
      if Kept(subtags, n, p) {
        var k :| KeptAt(subtags, n, k, p);
        assert k < n - 1 ==> KeptAt(subtags, n - 1, k, p);
      }
      if Kept(subtags, n - 1, p) {
        var k :| KeptAt(subtags, n - 1, k, p);
        assert KeptAt(subtags, n, k, p);
      }
    }
  }

  lemma {:induction false} JoinGrows(subtags: seq<string>, j: nat, k: nat)
    requires 1 <= j < k <= |subtags|
    ensures |Join(subtags[..j])| < |Join(subtags[..k])|
  {
    hide Join;
    JoinCut(subtags[..k], j);
    assert subtags[..k][..j] == subtags[..j];
  }

  /** The truncations of a tag are exactly its beginnings up to such a hyphen, longest first. */
  lemma {:induction false} TruncationsAreCuts(tag: string)
    ensures forall t :: t in Truncations(tag) <==> exists i :: Cut(tag, i) && UpTo(tag, i, t)
    ensures var r := Truncations(tag); forall i, j :: 0 <= i < j < |r| ==> |r[i]| > |r[j]|
  {
    hide Split, Join, Prefixes, Cut;
    var subtags := Split(tag);
    var ps := Prefixes(subtags, |subtags|);
    var r := Truncations(tag);
    SplitJoins(tag);
    PrefixesAre(subtags, |subtags|);
    PrefixesShrink(subtags, |subtags|);
    forall t ensures t in r <==> exists i :: Cut(tag, i) && UpTo(tag, i, t) {
      if t in r {
        var x :| 0 <= x < |r| && r[x] == t;
        assert ps[x] in ps;
        assert Kept(subtags, |subtags|, ps[x]);
        var k :| KeptAt(subtags, |subtags|, k, ps[x]);
        CutOfPrefix(tag, subtags, k);
        assert Cut(tag, |t|) && UpTo(tag, |t|, t);
      }
      if i :| Cut(tag, i) && UpTo(tag, i, t) {
        assert i < |tag| && tag[i] == '-' by { CutIsHyphen(tag, i); }
        var k := CutAt(subtags, i);
        CutOfPrefix(tag, subtags, k);
        assert KeptAt(subtags, |subtags|, k, subtags[..k]);
        assert Kept(subtags, |subtags|, subtags[..k]);
        assert subtags[..k] in ps;
        var x :| 0 <= x < |ps| && ps[x] == subtags[..k];
        assert r[x] == t;
      }
    }
    forall i, j | 0 <= i < j < |r| ensures |r[i]| > |r[j]| {
      assert ps[i] in ps && ps[j] in ps;
      assert Kept(subtags, |subtags|, ps[i]) && Kept(subtags, |subtags|, ps[j]);
      var k :| KeptAt(subtags, |subtags|, k, ps[i]);
      var l :| KeptAt(subtags, |subtags|, l, ps[j]);
      JoinGrows(subtags, l, k);
    }
  }

  lemma {:induction false} CutIsHyphen(tag: string, i: int)
    requires Cut(tag, i)
    ensures 0 <= i < |tag| && tag[i] == '-'
  {
  }

  // ----- Lookup -----

  /** A requested tag and its truncations. */
  function Candidates(tag: string): seq<string> {
    [tag] + Truncations(tag)
  }

  function FirstIn(candidates: seq<string>, available: seq<string>): Option<string> {
    if candidates == [] then None
    else if candidates[0] in available then Some(candidates[0])
    else FirstIn(candidates[1..], available)
  }

  /** RFC 4647 lookup: the first tag that is served, as its longest available form. */
  function Lookup(requested: seq<string>, available: seq<string>): Option<string> {
    if requested == [] then None
    else
      var first := FirstIn(Candidates(requested[0]), available);
      if first.Some? then first else Lookup(requested[1..], available)
  }

  method ComputeLookup(requested: seq<string>, available: seq<string>) returns (r: Option<string>)
    ensures r == Lookup(requested, available)
  {
    var listed: set<string> := {};
    for i := 0 to |available|
      invariant forall x :: x in listed <==> x in available[..i]
    {
      listed := listed + {available[i]};
      assert available[..i + 1] == available[..i] + [available[i]];
    }
    assert available[..|available|] == available;
    assert requested[0..] == requested;
    for i := 0 to |requested|
      invariant Lookup(requested[i..], available) == Lookup(requested, available)
    {
      var shorter := ComputeTruncations(requested[i]);
      var candidates := [requested[i]] + shorter;
      assert requested[i..][0] == requested[i] && requested[i..][1..] == requested[i + 1..];
      assert candidates[0..] == candidates;
      for k := 0 to |candidates|
        invariant FirstIn(candidates[k..], available) == FirstIn(candidates, available)
      {
        assert candidates[k..][0] == candidates[k] && candidates[k..][1..] == candidates[k + 1..];
        if candidates[k] in listed {
          return Some(candidates[k]);
        }
      }
    }
    r := None;
  }

  lemma {:induction false} FirstInIsFirst(candidates: seq<string>, available: seq<string>)
    ensures var r := FirstIn(candidates, available);
            (r.None? ==> forall c :: c in candidates ==> c !in available) &&
            (r.Some? ==> exists k :: 0 <= k < |candidates| && candidates[k] == r.value && r.value in available &&
                                     forall c :: c in candidates[..k] ==> c !in available)
  {
    if candidates != [] && candidates[0] !in available {
      FirstInIsFirst(candidates[1..], available);
      var r := FirstIn(candidates, available);
      if r.Some? {
        var k :| 0 <= k < |candidates[1..]| && candidates[1..][k] == r.value &&
                 forall c :: c in candidates[1..][..k] ==> c !in available;
        assert candidates[k + 1] == r.value;
        assert candidates[..k + 1] == [candidates[0]] + candidates[1..][..k];
      }
    } else if candidates != [] {
      assert candidates[..0] == [];
    }
  }

  predicate Served(tag: string, available: seq<string>) {
    exists c :: c in Candidates(tag) && c in available
  }

  /** Lookup finds the first requested tag that the available tags serve, and of it the longest
      candidate available; it finds nothing exactly when no requested tag is served. */
  lemma {:induction false} LookupIsFirstServed(requested: seq<string>, available: seq<string>)
    ensures var r := Lookup(requested, available);
            (r.None? <==> forall t :: t in requested ==> !Served(t, available)) &&
            (r.Some? ==> exists i :: 0 <= i < |requested| && FirstIn(Candidates(requested[i]), available) == r &&
                                     forall t :: t in requested[..i] ==> !Served(t, available))
  {
    if requested != [] {
      FirstInIsFirst(Candidates(requested[0]), available);
      LookupIsFirstServed(requested[1..], available);
      var r := Lookup(requested, available);
      assert requested == [requested[0]] + requested[1..];
      if Served(requested[0], available) {
        assert requested[..0] == [];
        assert FirstIn(Candidates(requested[0]), available) == r;
      } else if r.Some? {
        var i :| 0 <= i < |requested[1..]| && FirstIn(Candidates(requested[1..][i]), available) == r &&
                 forall t :: t in requested[1..][..i] ==> !Served(t, available);
        assert requested[i + 1] == requested[1..][i];
        assert requested[..i + 1] == [requested[0]] + requested[1..][..i];
      }
    }
  }

  /** The forms under which lookup tries a tag: itself, and its beginnings up to a cut. */
  ghost predicate Form(tag: string, t: string) {
    t == tag || exists i :: Cut(tag, i) && UpTo(tag, i, t)
  }

  lemma {:induction false} CandidatesAreForms(tag: string)
    ensures forall t :: t in Candidates(tag) <==> Form(tag, t)
    ensures var r := Candidates(tag); forall i, j :: 0 <= i < j < |r| ==> |r[i]| > |r[j]|
  {
    hide Truncations, Cut;
    TruncationsAreCuts(tag);
    var r := Candidates(tag);
    forall j | 0 < j < |r| ensures |tag| > |r[j]| {
      assert r[j] == Truncations(tag)[j - 1];
      assert r[j] in Truncations(tag);
      var i :| Cut(tag, i) && UpTo(tag, i, r[j]);
      CutIsHyphen(tag, i);
    }
  }

  ghost predicate LongestForm(tag: string, available: seq<string>, t: string) {
    Form(tag, t) && t in available && forall u :: Form(tag, u) && |u| > |t| ==> u !in available
  }

  ghost predicate NoForm(tag: string, available: seq<string>) {
    forall t :: Form(tag, t) ==> t !in available
  }

  lemma {:induction false} FirstInIsLongest(tag: string, available: seq<string>)
    ensures var r := FirstIn(Candidates(tag), available);
            (r.None? <==> NoForm(tag, available)) && (r.Some? ==> LongestForm(tag, available, r.value))
  {
    hide FirstIn, Candidates, Form;
    var cs := Candidates(tag);
    FirstInIsFirst(cs, available);
    CandidatesAreForms(tag);
    var r := FirstIn(cs, available);
    if r.Some? {
      var k :| 0 <= k < |cs| && cs[k] == r.value && r.value in available && forall c :: c in cs[..k] ==> c !in available;
      forall u | Form(tag, u) && |u| > |r.value| ensures u !in available {
        var j :| 0 <= j < |cs| && cs[j] == u;
        assert j < k;
        assert cs[..k][j] == u;
      }
    }
  }

  /** On the tags themselves: lookup answers the first requested tag of which some form is
      available, with the longest such form, and nothing exactly when there is no such tag. */
  lemma {:induction false} LookupIsLongestForm(requested: seq<string>, available: seq<string>)
    ensures var r := Lookup(requested, available);
            (r.None? <==> forall t :: t in requested ==> NoForm(t, available)) &&
            (r.Some? ==> exists i :: 0 <= i < |requested| && LongestForm(requested[i], available, r.value) &&
                                     forall t :: t in requested[..i] ==> NoForm(t, available))
  {
    hide FirstIn, Candidates, LongestForm, NoForm;
    if requested != [] {
      var (first, rest) := (requested[0], requested[1..]);
      FirstInIsLongest(first, available);
      assert requested == [first] + rest;
      var r := Lookup(requested, available);
      if FirstIn(Candidates(first), available).Some? {
        assert requested[..0] == [];
        assert LongestForm(requested[0], available, r.value);
      } else {
        LookupIsLongestForm(rest, available);
        if r.Some? {
          var i :| 0 <= i < |rest| && LongestForm(rest[i], available, r.value) && forall t :: t in rest[..i] ==> NoForm(t, available);
          assert requested[i + 1] == rest[i] && requested[..i + 1] == [first] + rest[..i];
        }
      }
    }
  }

  lemma {:induction false} FirstInAvailable(candidates: seq<string>, available: seq<string>)
    ensures FirstIn(candidates, available).Some? ==> FirstIn(candidates, available).value in available
  {
    if candidates != [] {
      FirstInAvailable(candidates[1..], available);
    }
  }

  lemma {:induction false} LookupAvailable(requested: seq<string>, available: seq<string>)
    ensures Lookup(requested, available).Some? ==> Lookup(requested, available).value in available
  {
    if requested != [] {
      FirstInAvailable(Candidates(requested[0]), available);
      LookupAvailable(requested[1..], available);
    }
  }

  // ----- Lists without duplicates -----

  /** The items not in the list yet, appended in order. */
  function AppendNew(list: seq<string>, items: seq<string>): seq<string>
    decreases |items|
  {
    if items == [] then list
    else AppendNew(if items[0] in list then list else list + [items[0]], items[1..])
  }

  lemma {:induction false} AppendNewFacts(list: seq<string>, items: seq<string>)
    ensures var r := AppendNew(list, items);
            list <= r && (NoRepeats(list) ==> NoRepeats(r)) && forall x :: x in r <==> x in list || x in items
    decreases |items|
  {
    if items != [] {
      AppendNewFacts(if items[0] in list then list else list + [items[0]], items[1..]);
      assert forall x :: x in items <==> x == items[0] || x in items[1..];
    }
  }

  lemma {:induction false} AppendNewConcat(list: seq<string>, a: seq<string>, b: seq<string>)
    ensures AppendNew(list, a + b) == AppendNew(AppendNew(list, a), b)
    decreases |a|
  {
    if a == [] {
      assert a + b == b;
    } else {
      assert (a + b)[1..] == a[1..] + b;
      AppendNewConcat(if a[0] in list then list else list + [a[0]], a[1..], b);
    }
  }

  lemma {:induction false} AppendNewNothing(list: seq<string>, items: seq<string>)
    requires forall x :: x in items ==> x in list
    ensures AppendNew(list, items) == list
    decreases |items|
  {
    if items != [] {
      assert items[0] in items;
      AppendNewNothing(list, items[1..]);
    }
  }

  method ComputeAppendNew(list: seq<string>, items: seq<string>) returns (r: seq<string>)
    ensures r == AppendNew(list, items)
  {
    r := list;
    assert items[0..] == items;
    for i := 0 to |items|
      invariant AppendNew(r, items[i..]) == AppendNew(list, items)
    {
      assert items[i..][0] == items[i] && items[i..][1..] == items[i + 1..];
      if items[i] !in r {
        r := r + [items[i]];
      }
    }
  }

  /** The canonical form of a tag, or None for a malformed one: golang.org/x/text's job. */
  type Canonicalizer = string -> Option<string>

  function CanonicalTags(canon: Canonicalizer, tags: seq<string>): seq<string> {
    if tags == [] then []
    else (if canon(tags[0]).Some? then [canon(tags[0]).value] else []) + CanonicalTags(canon, tags[1..])
  }

  function CanonicalizeAll(canon: Canonicalizer, tags: seq<string>): seq<string> {
    AppendNew([], CanonicalTags(canon, tags))
  }

  method ComputeCanonicalizeAll(canon: Canonicalizer, tags: seq<string>) returns (r: seq<string>)
    ensures r == CanonicalizeAll(canon, tags)
  {
    r := [];
    var seen: set<string> := {};
    assert tags[0..] == tags;
    for i := 0 to |tags|
      invariant forall x :: x in seen <==> x in r
      invariant AppendNew(r, CanonicalTags(canon, tags[i..])) == CanonicalizeAll(canon, tags)
    {
      assert tags[i..][0] == tags[i] && tags[i..][1..] == tags[i + 1..];
      var c := canon(tags[i]);
      var rest := CanonicalTags(canon, tags[i + 1..]);
      if c.Some? {
        assert ([c.value] + rest)[1..] == rest;
        if c.value !in seen {
          seen := seen + {c.value};
          r := r + [c.value];
        }
      } else {
        assert [] + rest == rest;
      }
    }
  }
}
