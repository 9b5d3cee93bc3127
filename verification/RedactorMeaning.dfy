/** What redaction leaves of a text (src/credentials/redactor.ts). */
module RedactorMeaning {
  import opened Values
  import opened Text
  import opened Redactor

  // ----- what stands around a secret -----

  /** The last part of a text, from n on. */
  ghost predicate EndsIn(hay: string, n: nat, rest: string) {
    n + |rest| == |hay| && forall i :: n <= i < |hay| ==> hay[i] == rest[i - n]
  }

  lemma SliceBehind(hay: string, n: nat, rest: string, k: nat, j: nat)
    requires EndsIn(hay, n, rest) && k <= j <= |rest|
    ensures hay[n + k..n + j] == rest[k..j] && hay[n + k..] == rest[k..]
  {
  }

  lemma OccursBehind(hay: string, n: nat, rest: string, s: string, j: int)
    requires EndsIn(hay, n, rest) && j >= 0
    ensures OccursAt(hay, s, n + j) == OccursAt(rest, s, j)
  {
    if j + |s| <= |rest| { SliceBehind(hay, n, rest, j, j + |s|); }
  }

  lemma {:induction false} IndexOfBehind(hay: string, n: nat, rest: string, s: string, k: nat, m: nat)
    requires s != [] && EndsIn(hay, n, rest) && k <= |rest| && m == n + k
    ensures IndexOf(rest, s, k).Some? ==> IndexOf(hay, s, m) == Some(n + IndexOf(rest, s, k).value)
    ensures IndexOf(rest, s, k).None? ==> IndexOf(hay, s, m) == None
    decreases |rest| - k
  {
    OccursBehind(hay, n, rest, s, k);
    if k + |s| <= |rest| && !OccursAt(rest, s, k) { IndexOfBehind(hay, n, rest, s, k + 1, m + 1); }
  }

  ghost predicate Becomes(hay: string, s: string, from: nat, r: string) {
    s != [] && from <= |hay| && Replaced(hay, s, from) == r
  }

  lemma NoneLeft(hay: string, s: string, from: nat)
    requires s != [] && from <= |hay| && IndexOf(hay, s, from).None?
    ensures Becomes(hay, s, from, hay[from..])
  {
  }

  lemma OneFound(hay: string, s: string, from: nat, j: nat, next: nat, r: string)
    requires s != [] && from <= |hay| && IndexOf(hay, s, from) == Some(j) && next == j + |s| && Becomes(hay, s, next, r)
    ensures Becomes(hay, s, from, hay[from..j] + REPLACEMENT + r)
  {
  }

  /** The next occurrence in both, at j and at jj. */
  lemma FoundBehind(hay: string, n: nat, rest: string, s: string, k: nat, m: nat, j: nat, jj: nat)
    requires s != [] && EndsIn(hay, n, rest) && k <= |rest| && m == n + k && jj == n + j
    requires IndexOf(rest, s, k) == Some(j)
    ensures IndexOf(hay, s, m) == Some(jj) && hay[m..jj] == rest[k..j]
  {
    IndexOfBehind(hay, n, rest, s, k, m);
    SliceBehind(hay, n, rest, k, j);
  }

  lemma NoneBehind(hay: string, n: nat, rest: string, s: string, k: nat, m: nat)
    requires s != [] && EndsIn(hay, n, rest) && k <= |rest| && m == n + k && IndexOf(rest, s, k).None?
    ensures Becomes(hay, s, m, rest[k..]) && Becomes(rest, s, k, rest[k..])
  {
    IndexOfBehind(hay, n, rest, s, k, m);
    SliceBehind(hay, n, rest, k, k);
    NoneLeft(hay, s, m);
    NoneLeft(rest, s, k);
  }

  /** Two texts with the same stretch before their next occurrence and the same outcome after it. */
  lemma BothFound(hay: string, rest: string, s: string, m: nat, jj: nat, k: nat, j: nat, nn: nat, next: nat, r: string)
    requires s != [] && m <= |hay| && k <= |rest| && nn == jj + |s| && next == j + |s|
    requires IndexOf(hay, s, m) == Some(jj) && IndexOf(rest, s, k) == Some(j) && hay[m..jj] == rest[k..j]
    requires Becomes(hay, s, nn, r) && Becomes(rest, s, next, r)
    ensures Becomes(hay, s, m, rest[k..j] + REPLACEMENT + r) && Becomes(rest, s, k, rest[k..j] + REPLACEMENT + r)
  {
    OneFound(hay, s, m, jj, nn, r);
    OneFound(rest, s, k, j, next, r);
  }

  /** What is found and replaced in a text does not depend on what is before it. */
  lemma {:induction false} ReplacedBehind(hay: string, n: nat, rest: string, s: string, k: nat, m: nat) returns (r: string)
    requires s != [] && EndsIn(hay, n, rest) && k <= |rest| && m == n + k
    ensures Becomes(hay, s, m, r) && Becomes(rest, s, k, r)
    decreases |rest| - k
  {
    var found := IndexOf(rest, s, k);
    if found.Some? {
      var j, next := found.value, found.value + |s|;
      var jj, nn := n + j, n + next;
      var more := ReplacedBehind(hay, n, rest, s, next, nn);
      FoundBehind(hay, n, rest, s, k, m, j, jj);
      BothFound(hay, rest, s, m, jj, k, j, nn, next, more);
      r := rest[k..j] + REPLACEMENT + more;
    } else {
      NoneBehind(hay, n, rest, s, k, m);
      r := rest[k..];
    }
  }

  lemma StandsBetween(a: string, s: string, b: string)
    ensures (a + s + b)[0..|a|] == a && OccursAt(a + s + b, s, |a|) && EndsIn(a + s + b, |a| + |s|, b)
  {
    assert (a + s + b)[|a|..|a| + |s|] == s;
  }

  lemma FirstReplaced(hay: string, a: string, s: string, b: string, next: nat) returns (r: string)
    requires s != [] && |hay| == next + |b| && next == |a| + |s| && hay[0..|a|] == a && EndsIn(hay, next, b)
    requires IndexOf(hay, s, 0) == Some(|a|)
    ensures Becomes(b, s, 0, r) && Becomes(hay, s, 0, a + REPLACEMENT + r)
  {
    r := ReplacedBehind(hay, next, b, s, 0, next);
    OneFound(hay, s, 0, |a|, next, r);
  }

  /** The first occurrence of a secret becomes `[REDACTED]`; what is before it stays, and so does what is after it,
      apart from further occurrences. */
  lemma FirstIsReplaced(a: string, s: string, b: string)
    requires s != [] && forall i :: 0 <= i < |a| ==> !OccursAt(a + s + b, s, i)
    ensures Redacted(a + s + b, [s]) == a + "[REDACTED]" + Redacted(b, [s])
  {
    StandsBetween(a, s, b);
    FirstOccurrence(a + s + b, s, |a|);
    var r := FirstReplaced(a + s + b, a, s, b, |a| + |s|);
    RedactedByOne(a + s + b, s);
    RedactedByOne(b, s);
  }

  /** A text in which no secret occurs stays as it is, and a value is a secret iff it has eight characters or more. */
  lemma OnlySecretsAreTouched(text: string, secrets: seq<string>, keys: seq<string>, env: map<string, string>, v: string)
    ensures NonEmpty(secrets) && (forall s :: s in secrets ==> !Contains(text, s)) ==> Redacted(text, secrets) == text
    ensures IsSecret(keys, env, v) <==> |v| >= 8 && exists k :: k in keys && k in env && env[k] == v
  {
    if NonEmpty(secrets) && forall s :: s in secrets ==> !Contains(text, s) { AbsentIsIdentity(text, secrets); }
  }
}
