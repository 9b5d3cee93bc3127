/** The credential redactor (src/credentials/redactor.ts), on decoded text. */
module Redactor {
  import opened Values
  import opened Text

  const MIN_SECRET_LEN := 8
  const REPLACEMENT := "[REDACTED]"

  // ----- collecting the secrets -----

  ghost predicate LongestFirst(secrets: seq<string>) {
    forall i, j :: 0 <= i < j < |secrets| ==> |secrets[i]| >= |secrets[j]|
  }

  ghost predicate Distinct(secrets: seq<string>) {
    forall i, j :: 0 <= i < j < |secrets| ==> secrets[i] != secrets[j]
  }

  /** Stable insertion of one value into a list sorted longest first. */
  function Inserted(sorted: seq<string>, v: string): (r: seq<string>)
    ensures multiset(r) == multiset(sorted) + multiset{v}
  {
    if sorted == [] then [v]
    else
      var n := |sorted| - 1;
      assert sorted == sorted[..n] + [sorted[n]];
      if |sorted[n]| >= |v| then sorted + [v] else Inserted(sorted[..n], v) + [sorted[n]]
  }

  lemma {:induction false} InsertedKeepsOrder(sorted: seq<string>, v: string)
    requires LongestFirst(sorted)
    ensures LongestFirst(Inserted(sorted, v))
  {
    if sorted != [] && |sorted[|sorted| - 1]| < |v| {
      var front, last := sorted[..|sorted| - 1], sorted[|sorted| - 1];
      InsertedKeepsOrder(front, v);
      InsertedMembers(front, v, Inserted(front, v));
      AppendShortest(Inserted(front, v), last);
    }
  }

  lemma AppendShortest(vs: seq<string>, v: string)
    requires LongestFirst(vs) && forall x :: x in vs ==> |x| >= |v|
    ensures LongestFirst(vs + [v])
  {
    forall i, j | 0 <= i < j < |vs + [v]|
      ensures |(vs + [v])[i]| >= |(vs + [v])[j]|
    {
      assert vs[i] in vs;
    }
  }

  lemma InsertedMembers(sorted: seq<string>, v: string, r: seq<string>)
    requires multiset(r) == multiset(sorted) + multiset{v}
    ensures forall x :: x in r <==> x in sorted || x == v
  {
    forall x
      ensures x in r <==> x in sorted || x == v
    {
      assert x in r <==> x in multiset(r);
      assert x in sorted <==> x in multiset(sorted);
    }
  }

  /** `Array.prototype.sort` by decreasing length, which is stable. */
  function SortedByLength(vs: seq<string>): (r: seq<string>)
    ensures LongestFirst(r)
    ensures multiset(r) == multiset(vs)
  {
    if vs == [] then []
    else
      var n := |vs| - 1;
      assert vs == vs[..n] + [vs[n]];
      InsertedKeepsOrder(SortedByLength(vs[..n]), vs[n]);
      Inserted(SortedByLength(vs[..n]), vs[n])
  }

  predicate IsSecret(keys: seq<string>, env: map<string, string>, v: string) {
    |v| >= MIN_SECRET_LEN && exists k :: k in keys && k in env && env[k] == v
  }

  /** `buildRedactor`: the distinct values of the named variables that are long enough, longest first. */
  method BuildSecrets(keys: seq<string>, env: map<string, string>) returns (secrets: seq<string>)
    ensures forall v :: v in secrets <==> IsSecret(keys, env, v)
    ensures Distinct(secrets) && LongestFirst(secrets)
  {
    var found: seq<string> := [];
    var seen: set<string> := {};
    for i := 0 to |keys|
      invariant forall v :: v in found <==> v in seen
      invariant forall v :: v in found <==> IsSecret(keys[..i], env, v)
      invariant Distinct(found)
    {
      assert keys[..i + 1] == keys[..i] + [keys[i]];
      if keys[i] in env && |env[keys[i]]| >= MIN_SECRET_LEN && env[keys[i]] !in seen {
        seen := seen + {env[keys[i]]};
        found := found + [env[keys[i]]];
      }
    }
    assert keys[..|keys|] == keys;
    secrets := SortedByLength(found);
    PermutationKeepsDistinct(found, secrets);
  }

  lemma {:induction false} DistinctCounts(vs: seq<string>)
    requires Distinct(vs)
    ensures forall v :: multiset(vs)[v] <= 1
  {
    if vs != [] {
      var n := |vs| - 1;
      DistinctCounts(vs[..n]);
      assert vs == vs[..n] + [vs[n]];
      assert forall i :: 0 <= i < n ==> vs[..n][i] == vs[i];
      assert vs[n] !in vs[..n];
      assert multiset(vs[..n])[vs[n]] == 0;
    }
  }

  lemma RepeatCountsTwice(r: seq<string>, i: nat, j: nat)
    requires i < j < |r| && r[i] == r[j]
    ensures multiset(r)[r[i]] >= 2
  {
    assert r == r[..i] + [r[i]] + r[i + 1..j] + [r[j]] + r[j + 1..];
  }

  lemma PermutationKeepsDistinct(vs: seq<string>, r: seq<string>)
    requires Distinct(vs) && multiset(vs) == multiset(r)
    ensures Distinct(r)
    ensures forall v :: v in r <==> v in vs
  {
    DistinctCounts(vs);
    forall i, j | 0 <= i < j < |r|
      ensures r[i] == r[j] ==> multiset(r)[r[i]] >= 2
    {
      if r[i] == r[j] { RepeatCountsTwice(r, i, j); }
    }
    forall v
      ensures v in r <==> v in vs
    {
      assert v in r <==> v in multiset(r);
      assert v in vs <==> v in multiset(vs);
    }
  }

  // ----- replacing one secret -----

  /** The text from an index on, with every occurrence of the needle, found from the left, replaced. */
  function Replaced(hay: string, needle: string, from: nat): string
    requires needle != [] && from <= |hay|
    decreases |hay| - from
  {
    match IndexOf(hay, needle, from)
    case None => hay[from..]
    case Some(j) => hay[from..j] + REPLACEMENT + Replaced(hay, needle, j + |needle|)
  }

  /** `splitReplace`: an index moving over the text and the parts collected so far. */
  method SplitReplace(hay: string, needle: string) returns (r: string)
    requires needle != []
    ensures r == Replaced(hay, needle, 0)
  {
    var parts := "";
    var i := 0;
    while i < |hay|
      invariant 0 <= i <= |hay|
      invariant Replaced(hay, needle, 0) == parts + Replaced(hay, needle, i)
    {
      var j := IndexOf(hay, needle, i);
      if j.None? {
        return parts + hay[i..];
      }
      ReplacedUnfold(hay, needle, i, j.value);
      NextReplaced(parts, hay[i..j.value], Replaced(hay, needle, j.value + |needle|), Replaced(hay, needle, i));
      parts := parts + hay[i..j.value] + REPLACEMENT;
      i := j.value + |needle|;
    }
    NothingToReplace(hay, needle, parts);
    return parts;
  }

  lemma ReplacedUnfold(hay: string, needle: string, i: nat, j: nat)
    requires needle != [] && i <= |hay| && IndexOf(hay, needle, i) == Some(j)
    ensures Replaced(hay, needle, i) == hay[i..j] + REPLACEMENT + Replaced(hay, needle, j + |needle|)
  {
  }

  lemma NextReplaced(parts: string, before: string, rest: string, whole: string)
    requires whole == before + REPLACEMENT + rest
    ensures parts + whole == parts + before + REPLACEMENT + rest
  {
    Regroup(parts, before, REPLACEMENT, rest);
  }

  lemma NothingToReplace(hay: string, needle: string, parts: string)
    requires needle != []
    ensures parts + Replaced(hay, needle, |hay|) == parts
  {
    assert IndexOf(hay, needle, |hay|).None? && hay[|hay|..] == "";
  }

  lemma Regroup(a: string, b: string, c: string, d: string)
    ensures a + (b + c + d) == a + b + c + d
  {
  }

  // ----- when a secret can touch the replacement -----

  /** s laid with its start p characters after the start of the replacement agrees with it where they meet. */
  predicate MeetsAt(s: string, p: int) {
    && -|s| < p < |REPLACEMENT|
    && forall q :: 0 <= q < |s| && 0 <= p + q < |REPLACEMENT| ==> s[q] == REPLACEMENT[p + q]
  }

  /** Some placement of s overlaps the replacement without contradiction. */
  predicate Touches(s: string) {
    exists p :: -|s| < p < |REPLACEMENT| && MeetsAt(s, p)
  }

  lemma OccurrenceMeets(u: string, v: string, s: string, i: int)
    requires OccursAt(u + REPLACEMENT + v, s, i) && |u| < i + |s| && i < |u| + |REPLACEMENT|
    ensures MeetsAt(s, i - |u|)
  {
    var p := i - |u|;
    forall q | 0 <= q < |s| && 0 <= p + q < |REPLACEMENT|
      ensures s[q] == REPLACEMENT[p + q]
    {
      OccursChar(u + REPLACEMENT + v, s, i, q);
      assert (u + REPLACEMENT + v)[i + q] == REPLACEMENT[p + q];
    }
  }

  /** An occurrence of s next to a replacement lies before or after it unless s touches it. */
  lemma OccursBesideReplacement(u: string, v: string, s: string, i: int)
    requires !Touches(s) && OccursAt(u + REPLACEMENT + v, s, i)
    ensures i + |s| <= |u| || i >= |u| + |REPLACEMENT|
  {
    if |u| < i + |s| && i < |u| + |REPLACEMENT| { OccurrenceMeets(u, v, s, i); }
  }

  /** Exactly: s never overlaps a replacement, in any surroundings, iff it does not touch it. */
  lemma TouchesIff(s: string)
    ensures Touches(s) <==>
            exists u: string, v: string, i: int ::
              OccursAt(u + REPLACEMENT + v, s, i) && |u| < i + |s| && i < |u| + |REPLACEMENT|
  {
    if Touches(s) {
      var p :| -|s| < p < |REPLACEMENT| && MeetsAt(s, p);
      var u := if p < 0 then s[..-p] else "";
      var v := if p + |s| > |REPLACEMENT| then s[|REPLACEMENT| - p..] else "";
      var text := u + REPLACEMENT + v;
      var i := |u| + p;
      forall q | 0 <= q < |s|
        ensures text[i + q] == s[q]
      {
        if 0 <= p + q < |REPLACEMENT| {
          assert text[i + q] == REPLACEMENT[p + q];
        }
      }
      OccursFromChars(text, s, i);
    }
    if exists u: string, v: string, i: int :: OccursAt(u + REPLACEMENT + v, s, i) && |u| < i + |s| && i < |u| + |REPLACEMENT| {
      var u: string, v: string, i: int :| OccursAt(u + REPLACEMENT + v, s, i) && |u| < i + |s| && i < |u| + |REPLACEMENT|;
      if !Touches(s) { OccursBesideReplacement(u, v, s, i); }
    }
  }

  /** What a long text that meets the replacement must contain. */
  lemma MeetingNeedsBrackets(s: string, p: int)
    requires |s| >= MIN_SECRET_LEN && MeetsAt(s, p)
    ensures '[' in s || ']' in s || s == "REDACTED"
  {
    if p <= 0 {
      assert s[-p] == REPLACEMENT[0];
    } else if p + |s| > 9 {
      assert s[9 - p] == REPLACEMENT[9];
    } else {
      assert p == 1 && |s| == 8;
      assert s == "REDACTED";
    }
  }

  lemma EveryMeetingNeedsBrackets(s: string)
    requires |s| >= MIN_SECRET_LEN
    ensures forall p :: -|s| < p < |REPLACEMENT| && MeetsAt(s, p) ==> '[' in s || ']' in s || s == "REDACTED"
  {
    forall p | -|s| < p < |REPLACEMENT| && MeetsAt(s, p)
      ensures '[' in s || ']' in s || s == "REDACTED"
    {
      MeetingNeedsBrackets(s, p);
    }
  }

  /** A long enough secret without brackets touches it only by being the word inside. */
  lemma BracketFreeDoesNotTouch(s: string)
    requires |s| >= MIN_SECRET_LEN && '[' !in s && ']' !in s && s != "REDACTED"
    ensures !Touches(s)
  {
    EveryMeetingNeedsBrackets(s);
  }

  // ----- no secret survives -----

  lemma OccursInSlice(hay: string, a: nat, b: nat, s: string, i: int)
    requires a <= b <= |hay| && OccursAt(hay[a..b], s, i)
    ensures OccursAt(hay, s, a + i) && a + i + |s| <= b
  {
    var slice := hay[a..b];
    assert |slice| == b - a && 0 <= i && i + |s| <= b - a;
    forall k | 0 <= k < |s|
      ensures hay[a + i + k] == s[k]
    {
      OccursChar(slice, s, i, k);
    }
    OccursFromChars(hay, s, a + i);
  }

  /** An occurrence beside a replacement is one in the text before it or in the text after it. */
  lemma OccursInPart(u: string, v: string, s: string, i: int)
    requires !Touches(s) && OccursAt(u + REPLACEMENT + v, s, i)
    ensures OccursAt(u, s, i) || OccursAt(v, s, i - |u| - |REPLACEMENT|)
  {
    OccursBesideReplacement(u, v, s, i);
    if i + |s| <= |u| {
      assert u + REPLACEMENT + v == u + (REPLACEMENT + v);
      OccursInPrefix(u, REPLACEMENT + v, s, i);
    } else {
      OccursInSuffix(u + REPLACEMENT, v, s, i);
    }
  }

  /** The pass for s leaves no s behind. */
  lemma {:induction false} PassRemoves(hay: string, s: string, from: nat)
    requires s != [] && from <= |hay| && !Touches(s)
    ensures !Contains(Replaced(hay, s, from), s)
    decreases |hay| - from
  {
    match IndexOf(hay, s, from)
    case None =>
      assert hay[from..] == hay[from..|hay|];
      forall i
        ensures !OccursAt(hay[from..|hay|], s, i)
      {
        if OccursAt(hay[from..|hay|], s, i) { OccursInSlice(hay, from, |hay|, s, i); }
      }
    case Some(j) =>
      var rest := Replaced(hay, s, j + |s|);
      PassRemoves(hay, s, j + |s|);
      forall i
        ensures !OccursAt(hay[from..j], s, i)
      {
        if OccursAt(hay[from..j], s, i) { OccursInSlice(hay, from, j, s, i); }
      }
      forall i
        ensures !OccursAt(hay[from..j] + REPLACEMENT + rest, s, i)
      {
        if OccursAt(hay[from..j] + REPLACEMENT + rest, s, i) { OccursInPart(hay[from..j], rest, s, i); }
      }
  }

  /** The pass for another secret does not create an s. */
  lemma {:induction false} PassKeepsAbsent(hay: string, t: string, s: string, from: nat)
    requires t != [] && s != [] && from <= |hay| && !Touches(s) && !Contains(hay, s)
    ensures !Contains(Replaced(hay, t, from), s)
    decreases |hay| - from
  {
    forall a: nat, b: nat, i | a <= b <= |hay|
      ensures !OccursAt(hay[a..b], s, i)
    {
      if OccursAt(hay[a..b], s, i) { OccursInSlice(hay, a, b, s, i); }
    }
    match IndexOf(hay, t, from)
    case None => assert hay[from..] == hay[from..|hay|];
    case Some(j) =>
      var rest := Replaced(hay, t, j + |t|);
      PassKeepsAbsent(hay, t, s, j + |t|);
      forall i
        ensures !OccursAt(hay[from..j] + REPLACEMENT + rest, s, i)
      {
        if OccursAt(hay[from..j] + REPLACEMENT + rest, s, i) { OccursInPart(hay[from..j], rest, s, i); }
      }
  }

  predicate NonEmpty(secrets: seq<string>) {
    forall i :: 0 <= i < |secrets| ==> secrets[i] != []
  }

  /** One pass per secret, in the order of the list. */
  function Redacted(text: string, secrets: seq<string>): string
    requires NonEmpty(secrets)
  {
    if secrets == [] then text
    else Replaced(Redacted(text, secrets[..|secrets| - 1]), secrets[|secrets| - 1], 0)
  }

  /** The scrubber built by `buildScrubber`. */
  method Redact(text: string, secrets: seq<string>) returns (r: string)
    requires NonEmpty(secrets)
    ensures r == Redacted(text, secrets)
  {
    r := text;
    for i := 0 to |secrets|
      invariant r == Redacted(text, secrets[..i])
    {
      assert secrets[..i + 1][..i] == secrets[..i];
      var j := IndexOf(r, secrets[i], 0);
      if j.Some? {
        r := SplitReplace(r, secrets[i]);
      }
    }
    assert secrets[..|secrets|] == secrets;
  }

  ghost predicate NoneTouches(secrets: seq<string>) {
    forall i :: 0 <= i < |secrets| ==> !Touches(secrets[i])
  }

  /** The theorem: after all passes no secret occurs anywhere, whatever the text. */
  lemma {:induction false} NoSecretSurvives(text: string, secrets: seq<string>)
    requires NonEmpty(secrets) && NoneTouches(secrets)
    ensures forall s :: s in secrets ==> !Contains(Redacted(text, secrets), s)
  {
    if secrets != [] {
      var n := |secrets| - 1;
      var before := Redacted(text, secrets[..n]);
      NoSecretSurvives(text, secrets[..n]);
      PassRemoves(before, secrets[n], 0);
      forall s | s in secrets
        ensures !Contains(Redacted(text, secrets), s)
      {
        var i :| 0 <= i < |secrets| && secrets[i] == s;
        if i < n {
          assert secrets[..n][i] == s;
          PassKeepsAbsent(before, secrets[n], s, 0);
        }
      }
    }
  }

  /** With secrets as `buildRedactor` collects them it is enough that none has a bracket or is the word itself. */
  lemma OrdinarySecretsNeverSurvive(text: string, secrets: seq<string>)
    requires forall s :: s in secrets ==> |s| >= MIN_SECRET_LEN && '[' !in s && ']' !in s && s != "REDACTED"
    ensures NonEmpty(secrets) && forall s :: s in secrets ==> !Contains(Redacted(text, secrets), s)
  {
    forall i | 0 <= i < |secrets|
      ensures !Touches(secrets[i])
    {
      BracketFreeDoesNotTouch(secrets[i]);
    }
    NoSecretSurvives(text, secrets);
  }

  // ----- exactness for one secret -----

  lemma ReplacedAlone(s: string, r: string)
    requires |r| < |s|
    ensures Replaced(s + r, s, 0) == REPLACEMENT + r
  {
    assert (s + r)[0..|s|] == s;
    assert IndexOf(s + r, s, 0) == Some(0);
    assert IndexOf(s + r, s, |s|).None?;
    assert Replaced(s + r, s, |s|) == r;
    assert (s + r)[0..0] + REPLACEMENT + r == REPLACEMENT + r;
  }

  /** A secret that begins with the end of the replacement, or lies inside it, leaks: its own
      replacement completes a new occurrence. */
  lemma FrontTouchLeaks(s: string, p: int)
    requires s != [] && 0 <= p && MeetsAt(s, p)
    ensures exists text: string :: Contains(Redacted(text, [s]), s)
  {
    var r := if p + |s| > |REPLACEMENT| then s[|REPLACEMENT| - p..] else "";
    ReplacedAlone(s, r);
    RedactedByOne(s + r, s);
    FollowsReplacement(s, p, r);
    assert Contains(Redacted(s + r, [s]), s);
  }

  lemma FollowsReplacement(s: string, p: int, r: string)
    requires 0 <= p && MeetsAt(s, p)
    requires r == if p + |s| > |REPLACEMENT| then s[|REPLACEMENT| - p..] else ""
    ensures OccursAt(REPLACEMENT + r, s, p)
  {
    var out := REPLACEMENT + r;
    forall q | 0 <= q < |s|
      ensures out[p + q] == s[q]
    {
      if p + q < |REPLACEMENT| { assert out[p + q] == REPLACEMENT[p + q]; }
    }
    OccursFromChars(out, s, p);
  }

  /** s occurs in its own first n characters followed by itself before the place where it was put. */
  predicate OccursEarly(s: string, n: nat)
    requires n <= |s|
  {
    exists i :: 0 <= i < n && OccursAt(s[..n] + s, s, i)
  }

  /** Some placement of s overlaps the replacement without contradiction and, if s begins before it, an
      occurrence of s right there is the first one the scan comes to. */
  predicate Leaks(s: string) {
    exists p :: -|s| < p < |REPLACEMENT| && LeaksAt(s, p)
  }

  predicate LeaksAt(s: string, p: int) {
    MeetsAt(s, p) && (p < 0 ==> !OccursEarly(s, -p))
  }

  /** An occurrence that begins in front of itself does not depend on what follows. */
  lemma EarlyIsLocal(s: string, n: nat, r: string)
    requires n <= |s| && !OccursEarly(s, n)
    ensures forall i :: 0 <= i < n ==> !OccursAt(s[..n] + s + r, s, i)
    ensures OccursAt(s[..n] + s + r, s, n)
  {
    forall i | 0 <= i < n
      ensures !OccursAt(s[..n] + s + r, s, i)
    {
      OccursInPrefix(s[..n] + s, r, s, i);
    }
    assert (s[..n] + s + r)[n..n + |s|] == s;
  }

  lemma ReplacedOnce(s: string, n: nat, r: string)
    requires s != [] && n <= |s| && !OccursEarly(s, n) && |r| < |s|
    ensures Replaced(s[..n] + s + r, s, 0) == s[..n] + REPLACEMENT + r
  {
    var hay := s[..n] + s + r;
    EarlyIsLocal(s, n, r);
    FirstOccurrence(hay, s, n);
    assert IndexOf(hay, s, n + |s|).None?;
    assert hay[n + |s|..] == r;
    assert hay[0..n] == s[..n];
  }

  /** A secret that ends with the beginning of the replacement leaks: its own replacement completes an
      occurrence that began before it. */
  lemma BackTouchLeaks(s: string, p: int)
    requires s != [] && p < 0 && LeaksAt(s, p)
    ensures exists text: string :: Contains(Redacted(text, [s]), s)
  {
    var r := if p + |s| > |REPLACEMENT| then s[|REPLACEMENT| - p..] else "";
    ReplacedOnce(s, -p, r);
    var text, out := s[..-p] + s + r, s[..-p] + REPLACEMENT + r;
    SpansReplacement(s, p, r);
    RedactedByOne(text, s);
    assert OccursAt(Redacted(text, [s]), s, 0);
  }

  lemma SpansReplacement(s: string, p: int, r: string)
    requires p < 0 && MeetsAt(s, p)
    requires r == if p + |s| > |REPLACEMENT| then s[|REPLACEMENT| - p..] else ""
    ensures OccursAt(s[..-p] + REPLACEMENT + r, s, 0)
  {
    var out := s[..-p] + REPLACEMENT + r;
    forall q | 0 <= q < |s|
      ensures out[q] == s[q]
    {
      if 0 <= p + q < |REPLACEMENT| { assert out[q] == REPLACEMENT[p + q]; }
    }
    OccursFromChars(out, s, 0);
  }

  /** An occurrence across the first replacement of a scan shows a leaking placement. */
  lemma CrossingLeaks(hay: string, s: string, from: nat, j: nat, rest: string, i: int)
    requires from <= j && OccursAt(hay, s, j) && forall k :: from <= k < j ==> !OccursAt(hay, s, k)
    requires OccursAt(hay[from..j] + REPLACEMENT + rest, s, i)
    requires j - from < i + |s| && i < j - from + |REPLACEMENT|
    ensures LeaksAt(s, i - (j - from))
  {
    var u := hay[from..j];
    OccurrenceMeets(u, rest, s, i);
    if i < |u| {
      var n := |u| - i;
      assert s[..n] == hay[j - n..j] by {
        forall k | 0 <= k < n
          ensures s[k] == hay[j - n + k]
        {
          OccursChar(u + REPLACEMENT + rest, s, i, k);
        }
      }
      assert s[..n] + s == hay[j - n..j + |s|];
      forall k | 0 <= k < n
        ensures !OccursAt(s[..n] + s, s, k)
      {
        if OccursAt(hay[j - n..j + |s|], s, k) { OccursInSlice(hay, j - n, j + |s|, s, k); }
      }
    }
  }

  /** The pass for a secret that does not leak leaves none behind. */
  lemma {:induction false} PassRemovesUnlessLeaking(hay: string, s: string, from: nat)
    requires s != [] && from <= |hay| && !Leaks(s)
    ensures !Contains(Replaced(hay, s, from), s)
    decreases |hay| - from
  {
    match IndexOf(hay, s, from)
    case None =>
      assert hay[from..] == hay[from..|hay|];
      forall i
        ensures !OccursAt(hay[from..|hay|], s, i)
      {
        if OccursAt(hay[from..|hay|], s, i) { OccursInSlice(hay, from, |hay|, s, i); }
      }
    case Some(j) =>
      var rest := Replaced(hay, s, j + |s|);
      PassRemovesUnlessLeaking(hay, s, j + |s|);
      forall i
        ensures !OccursAt(hay[from..j] + REPLACEMENT + rest, s, i)
      {
        NowhereAround(hay, s, from, j, rest, i);
      }
  }

  lemma NowhereAround(hay: string, s: string, from: nat, j: nat, rest: string, i: int)
    requires from <= j && OccursAt(hay, s, j) && forall k :: from <= k < j ==> !OccursAt(hay, s, k)
    requires s != [] && !Leaks(s) && !Contains(rest, s)
    ensures !OccursAt(hay[from..j] + REPLACEMENT + rest, s, i)
  {
    var u := hay[from..j];
    if i + |s| <= |u| {
      assert u + REPLACEMENT + rest == u + (REPLACEMENT + rest);
      OccursInPrefix(u, REPLACEMENT + rest, s, i);
      if OccursAt(u, s, i) { OccursInSlice(hay, from, j, s, i); }
    } else if i >= |u| + |REPLACEMENT| {
      OccursInSuffix(u + REPLACEMENT, rest, s, i);
    } else if OccursAt(u + REPLACEMENT + rest, s, i) {
      CrossingLeaks(hay, s, from, j, rest, i);
    }
  }

  /** Exactly: some text still contains a secret after its own redaction iff the secret leaks. */
  lemma SingleSecretLeaksIff(s: string)
    requires s != []
    ensures (exists text: string :: Contains(Redacted(text, [s]), s)) <==> Leaks(s)
  {
    if Leaks(s) {
      var p :| -|s| < p < |REPLACEMENT| && LeaksAt(s, p);
      if p < 0 { BackTouchLeaks(s, p); } else { FrontTouchLeaks(s, p); }
    } else {
      forall text: string
        ensures !Contains(Redacted(text, [s]), s)
      {
        PassRemovesUnlessLeaking(text, s, 0);
        RedactedByOne(text, s);
      }
    }
  }

  lemma RedactedByOne(text: string, s: string)
    requires s != []
    ensures Redacted(text, [s]) == Replaced(text, s, 0)
  {
    var one := [s];
    assert one[..0] == [];
  }

  lemma NewLastCharIsNotEarly(s: string)
    requires s != [] && s[|s| - 1] !in s[..|s| - 1]
    ensures !OccursEarly(s, |s| - 1)
  {
    var n := |s| - 1;
    forall i | 0 <= i < n
      ensures !OccursAt(s[..n] + s, s, i)
    {
      assert (s[..n] + s)[i..i + |s|][n] == (s[..n] + s)[i + n] == s[..n][i];
    }
  }

  /** Every secret whose only opening bracket is its last character leaks: after its first part repeated. */
  lemma OpeningBracketLeaks(part: string)
    requires '[' !in part
    ensures Redacted(part + part + "[", [part + "["]) == part + REPLACEMENT
    ensures Contains(part + REPLACEMENT, part + "[")
  {
    var s, n := part + "[", |part|;
    assert s[..n] == part;
    NewLastCharIsNotEarly(s);
    ReplacedOnce(s, n, "");
    RedactedByOne(part + part + "[", s);
    assert part + part + "[" == s[..n] + s + "";
    assert part + REPLACEMENT == s[..n] + REPLACEMENT + "";
    assert (part + REPLACEMENT)[0..n + 1] == s;
    assert OccursAt(part + REPLACEMENT, s, 0);
  }

  /** Touching is not enough: eight opening brackets touch the replacement and never leak. */
  lemma TouchingMayBeSafe()
    ensures Touches("[[[[[[[[") && !Leaks("[[[[[[[[")
  {
    var s := "[[[[[[[[";
    assert MeetsAt(s, -7);
    forall p | -|s| < p < |REPLACEMENT| && p != -7
      ensures !MeetsAt(s, p)
    {
      if p > 0 {
        assert s[0] != REPLACEMENT[p];
      } else {
        assert s[1 - p] != REPLACEMENT[1];
      }
    }
    assert OccursAt(s[..7] + s, s, 0);
  }

  /** With several secrets a later pass can complete an earlier one: the eight brackets that never leak alone
      leak before every other secret without a bracket. */
  lemma LaterSecretLeaks(t: string)
    requires t != "" && '[' !in t
    ensures Redacted("[[[[[[[" + t, ["[[[[[[[[", t]) == "[[[[[[[" + REPLACEMENT
    ensures Contains("[[[[[[[" + REPLACEMENT, "[[[[[[[[")
  {
    var s, part := "[[[[[[[[", "[[[[[[[";
    var text, two := part + t, [s, t];
    forall i
      ensures !OccursAt(text, s, i)
    {
      if 0 <= i <= |text| - 8 { assert text[i..i + 8][7] == text[i + 7] == t[i]; }
    }
    assert two[..1] == [s];
    RedactedByOne(text, s);
    AbsentPassIsIdentity(text, s);
    forall j | 0 <= j < 7
      ensures !OccursAt(text, t, j)
    {
      if j + |t| <= |text| { assert text[j..j + |t|][0] == text[j] == '['; }
    }
    assert text[7..7 + |t|] == t;
    ReplacedAtEnd(part, t);
    assert (part + REPLACEMENT)[0..8] == s;
    assert OccursAt(part + REPLACEMENT, s, 0);
  }

  lemma ReplacedAtEnd(part: string, t: string)
    requires t != "" && OccursAt(part + t, t, |part|) && forall j :: 0 <= j < |part| ==> !OccursAt(part + t, t, j)
    ensures Replaced(part + t, t, 0) == part + REPLACEMENT
  {
    var text := part + t;
    FirstOccurrence(text, t, |part|);
    ReplacedUnfold(text, t, 0, |part|);
    NothingToReplace(text, t, "");
    assert text[0..|part|] == part && |part| + |t| == |text|;
    assert "" + Replaced(text, t, |text|) == Replaced(text, t, |text|);
    assert part + REPLACEMENT + "" == part + REPLACEMENT;
  }

  /** A concrete leak: the redacted text still contains the secret. */
  lemma ClosingBracketLeaks()
    ensures Redacted("]hunter2x" + "hunter2x", ["]hunter2x"]) == "[REDACTED]hunter2x"
    ensures Contains("[REDACTED]hunter2x", "]hunter2x")
  {
    ReplacedAlone("]hunter2x", "hunter2x");
    var one := ["]hunter2x"];
    assert one[..0] == [];
    assert "[REDACTED]hunter2x"[9..18] == "]hunter2x";
    assert OccursAt("[REDACTED]hunter2x", "]hunter2x", 9);
  }

  // ----- what redaction preserves -----

  lemma AbsentPassIsIdentity(text: string, s: string)
    requires s != [] && !Contains(text, s)
    ensures Replaced(text, s, 0) == text
  {
    assert IndexOf(text, s, 0).None?;
  }

  lemma {:induction false} AbsentIsIdentity(text: string, secrets: seq<string>)
    requires NonEmpty(secrets) && forall s :: s in secrets ==> !Contains(text, s)
    ensures Redacted(text, secrets) == text
  {
    if secrets != [] {
      var n := |secrets| - 1;
      assert forall s :: s in secrets[..n] ==> s in secrets;
      AbsentIsIdentity(text, secrets[..n]);
      AbsentPassIsIdentity(text, secrets[n]);
    }
  }

  lemma {:induction false} RedactedSplits(text: string, a: seq<string>, b: seq<string>)
    requires NonEmpty(a) && NonEmpty(b)
    ensures NonEmpty(a + b) && Redacted(text, a + b) == Redacted(Redacted(text, a), b)
    decreases |b|
  {
    if b == [] {
      assert a + b == a;
    } else {
      var n := |b| - 1;
      RedactedSplits(text, a, b[..n]);
      assert (a + b)[..|a + b| - 1] == a + b[..n];
    }
  }

  /** A secret occurs in no other secret that comes after it, nor, not touching it, in the replacement. */
  lemma LaterSecretsElsewhere(secrets: seq<string>, i: nat, k: nat)
    requires i < |secrets| && k < |secrets| && i != k
    requires NonEmpty(secrets) && Distinct(secrets) && LongestFirst(secrets) && NoneTouches(secrets)
    ensures i < k ==> !Contains(secrets[k], secrets[i])
    ensures !Contains(REPLACEMENT, secrets[i])
  {
    var s, t := secrets[k], secrets[i];
    if i < k {
      assert |t| >= |s| && t != s;
      forall j
        ensures !OccursAt(s, t, j)
      {
        assert s[0..|s|] == s;
      }
    }
    forall j
      ensures !OccursAt(REPLACEMENT, t, j)
    {
      if OccursAt(REPLACEMENT, t, j) {
        assert "" + REPLACEMENT + "" == REPLACEMENT;
        OccursBesideReplacement("", "", t, j);
      }
    }
  }

  lemma SecretsElsewhere(secrets: seq<string>, k: nat)
    requires k < |secrets| && NonEmpty(secrets) && Distinct(secrets) && LongestFirst(secrets) && NoneTouches(secrets)
    ensures forall t :: t in secrets[..k] ==> !Contains(secrets[k], t)
    ensures forall t :: t in secrets[k + 1..] ==> !Contains(REPLACEMENT, t)
  {
    forall t | t in secrets[..k]
      ensures !Contains(secrets[k], t)
    {
      var i :| 0 <= i < k && secrets[i] == t;
      LaterSecretsElsewhere(secrets, i, k);
    }
    forall t | t in secrets[k + 1..]
      ensures !Contains(REPLACEMENT, t)
    {
      var i :| k < i < |secrets| && secrets[i] == t;
      LaterSecretsElsewhere(secrets, i, k);
    }
  }

  lemma PassesInTurn(s: string, a: seq<string>, b: seq<string>)
    requires NonEmpty(a) && NonEmpty([s] + b) && NonEmpty(b) && s != []
    requires forall t :: t in a ==> !Contains(s, t)
    requires forall t :: t in b ==> !Contains(REPLACEMENT, t)
    ensures NonEmpty(a + ([s] + b)) && Redacted(s, a + ([s] + b)) == REPLACEMENT
  {
    AbsentIsIdentity(s, a);
    OneSecret(s);
    AbsentIsIdentity(REPLACEMENT, b);
    RedactedSplits(s, a, [s] + b);
    RedactedSplits(s, [s], b);
  }

  /** A text that is one secret becomes exactly the replacement, because longer secrets go first. */
  lemma WholeSecretBecomesReplacement(secrets: seq<string>, k: nat)
    requires k < |secrets| && NonEmpty(secrets) && Distinct(secrets) && LongestFirst(secrets) && NoneTouches(secrets)
    ensures Redacted(secrets[k], secrets) == REPLACEMENT
  {
    SecretsElsewhere(secrets, k);
    AroundOne(secrets, k);
    PassesInTurn(secrets[k], secrets[..k], secrets[k + 1..]);
  }

  lemma AroundOne(secrets: seq<string>, k: nat)
    requires k < |secrets| && NonEmpty(secrets)
    ensures NonEmpty(secrets[..k]) && NonEmpty([secrets[k]] + secrets[k + 1..]) && NonEmpty(secrets[k + 1..])
    ensures secrets == secrets[..k] + ([secrets[k]] + secrets[k + 1..])
  {
  }

  lemma OneSecret(s: string)
    requires s != []
    ensures Redacted(s, [s]) == REPLACEMENT
  {
    var one := [s];
    assert one[..0] == [];
    ReplacedAlone(s, "");
    assert s + "" == s && REPLACEMENT + "" == REPLACEMENT;
  }
}
