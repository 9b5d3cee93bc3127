/** Searching in strings, as `indexOf`, `startsWith` and `trim` do. */
module Text {
  import opened Values

  predicate OccursAt(hay: string, needle: string, i: int) {
    0 <= i <= |hay| - |needle| && hay[i..i + |needle|] == needle
  }

  ghost predicate Contains(hay: string, needle: string) {
    exists i :: OccursAt(hay, needle, i)
  }

  /** First occurrence at or after `from`. */
  function IndexOf(hay: string, needle: string, from: nat): (r: Option<nat>)
    ensures r.Some? ==> from <= r.value && OccursAt(hay, needle, r.value) && forall j :: from <= j < r.value ==> !OccursAt(hay, needle, j)
    ensures r.None? ==> forall j :: from <= j ==> !OccursAt(hay, needle, j)
    decreases |hay| - from
  {
    if from > |hay| - |needle| then None
    else if OccursAt(hay, needle, from) then Some(from)
    else IndexOf(hay, needle, from + 1)
  }

  lemma FirstOccurrence(hay: string, needle: string, n: nat)
    requires OccursAt(hay, needle, n) && forall i :: 0 <= i < n ==> !OccursAt(hay, needle, i)
    ensures IndexOf(hay, needle, 0) == Some(n)
  {
  }

  predicate StartsWith(s: string, prefix: string) {
    OccursAt(s, prefix, 0)
  }

  lemma OccursChar(hay: string, needle: string, i: int, k: nat)
    requires OccursAt(hay, needle, i) && k < |needle|
    ensures hay[i + k] == needle[k]
  {
    assert hay[i..i + |needle|][k] == needle[k];
  }

  lemma OccursFromChars(hay: string, needle: string, i: nat)
    requires i + |needle| <= |hay| && forall k :: 0 <= k < |needle| ==> hay[i + k] == needle[k]
    ensures OccursAt(hay, needle, i)
  {
  }

  lemma OccursInPrefix(a: string, b: string, needle: string, i: int)
    requires i + |needle| <= |a|
    ensures OccursAt(a + b, needle, i) == OccursAt(a, needle, i)
  {
    if 0 <= i { assert (a + b)[i..i + |needle|] == a[i..i + |needle|]; }
  }

  lemma OccursInSuffix(a: string, b: string, needle: string, i: int)
    requires i >= |a|
    ensures OccursAt(a + b, needle, i) == OccursAt(b, needle, i - |a|)
  {
    if i + |needle| <= |a| + |b| {
      assert (a + b)[i..i + |needle|] == b[i - |a|..i - |a| + |needle|];
    }
  }

  function Concat(parts: seq<string>): string {
    if parts == [] then "" else parts[0] + Concat(parts[1..])
  }

  lemma {:induction false} ConcatAppend(parts: seq<string>, p: string)
    ensures Concat(parts + [p]) == Concat(parts) + p
  {
    if parts == [] {
      assert [p][1..] == [];
      assert parts + [p] == [p];
    } else {
      ConcatAppend(parts[1..], p);
      assert (parts + [p])[1..] == parts[1..] + [p];
    }
  }

  lemma ConcatLast(parts: seq<string>, n: nat)
    requires n < |parts|
    ensures Concat(parts[..n + 1]) == Concat(parts[..n]) + parts[n]
  {
    assert parts[..n + 1] == parts[..n] + [parts[n]];
    ConcatAppend(parts[..n], parts[n]);
  }

  lemma WholePrefix(parts: seq<string>)
    ensures parts[..|parts|] == parts
  {
  }

  function Joined(parts: seq<string>, sep: string): string {
    if parts == [] then ""
    else if |parts| == 1 then parts[0]
    else parts[0] + sep + Joined(parts[1..], sep)
  }

  /** White space and line terminators as `String.prototype.trim` knows them. */
  predicate IsSpace(c: char) {
    c == '\t' || c == '\n' || c == '\U{000B}' || c == '\U{000C}' || c == '\r' || c == ' ' || c == '\U{00A0}'
    || c == '\U{1680}' || '\U{2000}' <= c <= '\U{200A}' || c == '\U{2028}' || c == '\U{2029}' || c == '\U{202F}'
    || c == '\U{205F}' || c == '\U{3000}' || c == '\U{FEFF}'
  }

  function TrimStart(s: string): string {
    if s != [] && IsSpace(s[0]) then TrimStart(s[1..]) else s
  }

  function TrimEnd(s: string): string {
    if s != [] && IsSpace(s[|s| - 1]) then TrimEnd(s[..|s| - 1]) else s
  }

  function Trim(s: string): string {
    TrimEnd(TrimStart(s))
  }
}
