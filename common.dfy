/** Value-level helpers shared by the services: Python's optional values and
    truthiness, the few string operations the services apply (`lower`,
    `strip`, `split`, substring `in`) and order-preserving de-duplication,
    which is what both a Python set/dict built in a loop and a
    "append if not already present" loop compute. */
module Common {

  datatype Option<+T> = None | Some(value: T)

  /** Python truthiness of an optional string: present and non-empty. */
  predicate Truthy(o: Option<string>) {
    o.Some? && o.value != ""
  }

  /** Python's `o or fallback` where the fallback is a string. */
  function OrText(o: Option<string>, fallback: string): string {
    if Truthy(o) then o.value else fallback
  }

  /** Python's `a or b` on two optional strings (yields `b` as it is when `a` is falsy). */
  function OrElse(a: Option<string>, b: Option<string>): Option<string> {
    if Truthy(a) then a else b
  }

  /** Python's `d.get(k, "")` once the lookup has produced an optional value. */
  function OrEmpty(o: Option<string>): string {
    if o.Some? then o.value else ""
  }

  /** How an f-string renders an optional string: a missing value prints as "None". */
  function Text(o: Option<string>): string {
    if o.Some? then o.value else "None"
  }

  // ---------------------------------------------------------------- case and spaces

  function LowerChar(c: char): char {
    if 'A' <= c <= 'Z' then (c as int - 'A' as int + 'a' as int) as char else c
  }

  /** `s.lower()`, restricted to the ASCII letters. */
  function Lower(s: string): string {
    seq(|s|, i requires 0 <= i < |s| => LowerChar(s[i]))
  }

  /** The ASCII characters Python's `str.strip()` removes. */
  predicate IsSpace(c: char) {
    c == ' ' || 9 <= c as int <= 13 || 28 <= c as int <= 31
  }

  function StripLeft(s: string): string {
    if |s| > 0 && IsSpace(s[0]) then StripLeft(s[1..]) else s
  }

  function StripRight(s: string): string {
    if |s| > 0 && IsSpace(s[|s| - 1]) then StripRight(s[..|s| - 1]) else s
  }

  /** `s.strip()`. */
  function Strip(s: string): string {
    StripRight(StripLeft(s))
  }

  // ---------------------------------------------------------------- split and search

  /** Position of the first `c` in `s`, or `|s|` when there is none. */
  function IndexOf(s: string, c: char): (i: nat)
    ensures i <= |s|
    ensures i < |s| ==> s[i] == c
    ensures forall j :: 0 <= j < i ==> s[j] != c
  {
    if |s| == 0 || s[0] == c then 0 else 1 + IndexOf(s[1..], c)
  }

  /** `s.split(sep)` for a one-character separator: never empty, `""` gives `[""]`. */
  function Split(s: string, sep: char): seq<string>
    decreases |s|
  {
    var i := IndexOf(s, sep);
    if i == |s| then [s] else [s[..i]] + Split(s[i + 1..], sep)
  }

  /** `sep.join(parts)`. */
  function Join(parts: seq<string>, sep: char): string {
    if |parts| == 0 then "" else if |parts| == 1 then parts[0] else parts[0] + [sep] + Join(parts[1..], sep)
  }

  /** Splitting yields at least one part, no part holds the separator, the first part
      is the text before the first separator, and joining the parts gives `s` back. */
  lemma {:induction false} SplitParts(s: string, sep: char)
    ensures |Split(s, sep)| >= 1
    ensures Split(s, sep)[0] == s[..IndexOf(s, sep)]
    ensures forall p :: p in Split(s, sep) ==> sep !in p
    ensures Join(Split(s, sep), sep) == s
  {
    SplitNoSep(s, sep);
    SplitJoin(s, sep);
  }

  lemma {:induction false} SplitNoSep(s: string, sep: char)
    ensures forall p :: p in Split(s, sep) ==> sep !in p
    decreases |s|
  {
    var i := IndexOf(s, sep);
    if i < |s| {
      SplitNoSep(s[i + 1..], sep);
      assert Split(s, sep) == [s[..i]] + Split(s[i + 1..], sep);
    }
  }

  lemma {:induction false} SplitJoin(s: string, sep: char)
    ensures Join(Split(s, sep), sep) == s
    decreases |s|
  {
    var i := IndexOf(s, sep);
    if i < |s| {
      var rest := s[i + 1..];
      SplitJoin(rest, sep);
      var r := Split(rest, sep);
      assert ([s[..i]] + r)[1..] == r;
      assert s == s[..i] + [sep] + rest;
    }
  }

  /** Python's substring test `needle in hay`. */
  predicate Contains(hay: string, needle: string)
    decreases |hay|
  {
    |needle| <= |hay| && (hay[..|needle|] == needle || Contains(hay[1..], needle))
  }

  /** `needle` occurs in `hay` starting at offset `i`. */
  predicate OccursAt(hay: string, needle: string, i: int) {
    0 <= i <= |hay| - |needle| && hay[i..i + |needle|] == needle
  }

  /** The recursive substring test agrees with "occurs at some offset". */
  lemma {:induction false} ContainsAtOffset(hay: string, needle: string)
    ensures Contains(hay, needle) <==> exists i :: OccursAt(hay, needle, i)
    decreases |hay|
  {
    if |needle| > |hay| {
    } else if hay[..|needle|] == needle {
      assert OccursAt(hay, needle, 0);
    } else {
      ContainsAtOffset(hay[1..], needle);
      if exists i :: OccursAt(hay, needle, i) {
        var i :| OccursAt(hay, needle, i);
        assert i != 0;
        assert hay[1..][i - 1..i - 1 + |needle|] == hay[i..i + |needle|];
        assert OccursAt(hay[1..], needle, i - 1);
      }
      if Contains(hay[1..], needle) {
        var i :| OccursAt(hay[1..], needle, i);
        assert hay[i + 1..i + 1 + |needle|] == hay[1..][i..i + |needle|];
        assert OccursAt(hay, needle, i + 1);
      }
    }
  }

  // ---------------------------------------------------------------- sequences

  ghost predicate NoDup<T>(s: seq<T>) {
    forall i, j :: 0 <= i < j < |s| ==> s[i] != s[j]
  }

  function Elems<T>(s: seq<T>): set<T> {
    set x | x in s
  }

  /** One more element of `s` taken into a prefix. */
  lemma PrefixSnoc<T>(s: seq<T>, i: nat)
    requires i < |s|
    ensures Elems(s[..i + 1]) == Elems(s[..i]) + {s[i]}
    ensures |s[..i + 1]| == i + 1 && s[..i + 1][..i] == s[..i] && s[..i + 1][i] == s[i]
  {
    assert s[..i + 1] == s[..i] + [s[i]];
  }

  /** The distinct elements of `s`, each at its first occurrence (left fold, as the
      "append if not present" loops compute it). */
  function Dedup<T(==)>(s: seq<T>): seq<T> {
    if |s| == 0 then []
    else
      var d := Dedup(s[..|s| - 1]);
      if s[|s| - 1] in d then d else d + [s[|s| - 1]]
  }

  /** One more element is appended exactly when it is new. */
  lemma DedupSnoc<T>(s: seq<T>, x: T)
    ensures Dedup(s + [x]) == if x in Dedup(s) then Dedup(s) else Dedup(s) + [x]
  {
    assert (s + [x])[..|s|] == s;
  }

  /** `Dedup` keeps every element once, drops nothing, and keeps the order of first
      occurrences: an earlier element of the result occurs in `s` before any
      occurrence of a later one. */
  lemma {:induction false} DedupSpec<T>(s: seq<T>)
    ensures NoDup(Dedup(s))
    ensures Elems(Dedup(s)) == Elems(s)
    ensures forall i, j, k :: 0 <= i < j < |Dedup(s)| && 0 <= k < |s| && s[k] == Dedup(s)[j] ==> Dedup(s)[i] in s[..k]
  {
    if |s| > 0 {
      var p, y := s[..|s| - 1], s[|s| - 1];
      assert s == p + [y];
      DedupSpec(p);
      var d := Dedup(p);
      var e := Dedup(s);
      assert Elems(s) == Elems(p) + {y};
      assert Elems(d + [y]) == Elems(d) + {y};
      forall i, j, k | 0 <= i < j < |e| && 0 <= k < |s| && s[k] == e[j]
        ensures e[i] in s[..k]
      {
        if k == |s| - 1 {
          assert e[i] in Elems(p);
          assert p <= s[..k];
        } else {
          assert s[k] == p[k];
          if j < |d| {
            assert e[i] == d[i] && e[j] == d[j];
            assert d[i] in p[..k];
            assert p[..k] == s[..k];
          } else {
            // e[j] would be the new element y, which does not occur in p
            assert false;
          }
        }
      }
    }
  }
}
