/**
  The Python string operations the generator relies on: `str.strip()`,
  the substring test `key in text` and the literal replace-all `text.replace(key, val)`.
*/
module Text {

  type String = seq<char>

  // ---------------------------------------------------------------------------
  // Whitespace and str.strip()
  // ---------------------------------------------------------------------------

  /** The characters for which Python's `str.isspace()` holds; `str.strip()` removes exactly these. */
  predicate IsSpace(c: char) {
    || ('\t' <= c <= '\r')
    || ('\U{1c}' <= c <= '\U{1f}')
    || c == ' '
    || c == '\U{85}'
    || c == '\U{a0}'
    || c == '\U{1680}'
    || ('\U{2000}' <= c <= '\U{200a}')
    || c == '\U{2028}'
    || c == '\U{2029}'
    || c == '\U{202f}'
    || c == '\U{205f}'
    || c == '\U{3000}'
  }

  predicate AllSpace(s: String) {
    forall i | 0 <= i < |s| :: IsSpace(s[i])
  }

  /** Leading whitespace removed: the result is a suffix of `s`, everything cut off is whitespace. */
  function TrimLeft(s: String): (r: String)
    ensures |r| <= |s| && r == s[|s| - |r|..]
    ensures AllSpace(s[..|s| - |r|])
    ensures r == [] || !IsSpace(r[0])
    decreases |s|
  {
    if s != [] && IsSpace(s[0]) then
      var r := TrimLeft(s[1..]);
      assert s[..|s| - |r|] == [s[0]] + s[1..][..|s| - 1 - |r|];
      AllSpaceConcat([s[0]], s[1..][..|s| - 1 - |r|]);
      assert s[1..][|s| - 1 - |r|..] == s[|s| - |r|..];
      r
    else s
  }

  /** Trailing whitespace removed: the result is a prefix of `s`, everything cut off is whitespace. */
  function TrimRight(s: String): (r: String)
    ensures |r| <= |s| && r == s[..|r|]
    ensures AllSpace(s[|r|..])
    ensures r == [] || !IsSpace(r[|r| - 1])
    decreases |s|
  {
    if s != [] && IsSpace(s[|s| - 1]) then
      var r := TrimRight(s[..|s| - 1]);
      assert s[|r|..] == s[..|s| - 1][|r|..] + [s[|s| - 1]];
      r
    else s
  }

  /** `s` is whitespace, then `core`, then whitespace, with `core` starting at `lead`. */
  predicate SplitsAround(s: String, lead: nat, core: String) {
    && lead + |core| <= |s|
    && s[lead..lead + |core|] == core
    && AllSpace(s[..lead])
    && AllSpace(s[lead + |core|..])
  }

  /** Python's `s.strip()`. */
  function Strip(s: String): String {
    TrimRight(TrimLeft(s))
  }

  /** Whitespace followed by whitespace is whitespace. */
  lemma AllSpaceConcat(a: String, b: String)
    requires AllSpace(a) && AllSpace(b)
    ensures AllSpace(a + b)
  {
    forall i | 0 <= i < |a + b| ensures IsSpace((a + b)[i]) {
      if i < |a| { assert (a + b)[i] == a[i]; } else { assert (a + b)[i] == b[i - |a|]; }
    }
  }

  /** What `strip()` returns is a contiguous piece of `s` with only whitespace around it. */
  lemma StripSplits(s: String)
    ensures SplitsAround(s, |s| - |TrimLeft(s)|, Strip(s))
  {
    SplitsFromTrims(s, TrimLeft(s), Strip(s));
  }

  /** A whitespace-cut suffix, then a whitespace-cut prefix of it, leaves a piece with whitespace around it. */
  lemma SplitsFromTrims(s: String, left: String, r: String)
    requires |left| <= |s| && left == s[|s| - |left|..] && AllSpace(s[..|s| - |left|])
    requires |r| <= |left| && r == left[..|r|] && AllSpace(left[|r|..])
    ensures SplitsAround(s, |s| - |left|, r)
  {
    var lead := |s| - |left|;
    assert s[lead..lead + |r|] == s[lead..][..|r|];
    assert s[lead + |r|..] == left[|r|..];
  }

  /** `strip()` gives the empty string exactly when the input is all whitespace. */
  lemma StripEmptyIffAllSpace(s: String)
    ensures Strip(s) == [] <==> AllSpace(s)
  {
    var left := TrimLeft(s);
    var lead := |s| - |left|;
    StripSplits(s);
    if Strip(s) == [] {
      assert s == s[..lead] + s[lead..];
      AllSpaceConcat(s[..lead], s[lead..]);
    } else {
      assert Strip(s)[0] == left[0] == s[lead];
    }
  }

  /** A non-empty result of `strip()` begins and ends with a non-space character. */
  lemma StripEnds(s: String)
    ensures Strip(s) != [] ==> !IsSpace(Strip(s)[0]) && !IsSpace(Strip(s)[|Strip(s)| - 1])
  {
    var left := TrimLeft(s);
    if Strip(s) != [] {
      assert Strip(s)[0] == left[0];
    }
  }

  /** A string that neither begins nor ends with whitespace is its own `strip()`. */
  lemma StripUnpadded(s: String)
    requires s == [] || (!IsSpace(s[0]) && !IsSpace(s[|s| - 1]))
    ensures Strip(s) == s
  {
  }

  /** Stripping twice is stripping once. */
  lemma StripIdempotent(s: String)
    ensures Strip(Strip(s)) == Strip(s)
  {
    StripEnds(s);
  }

  // ---------------------------------------------------------------------------
  // Substring test: Python's `key in text`
  // ---------------------------------------------------------------------------

  /** `key` occurs in `s` starting at position `i`. */
  predicate OccursAt(s: String, key: String, i: int) {
    0 <= i && i + |key| <= |s| && s[i..i + |key|] == key
  }

  /** Python's `key in s`; the empty string is in every string. */
  predicate Contains(s: String, key: String) {
    exists i | 0 <= i <= |s| - |key| :: OccursAt(s, key, i)
  }

  /** No occurrence of `key` in `s` starts before position `n`. */
  predicate NoMatchBefore(s: String, key: String, n: int) {
    forall j | 0 <= j < n :: !OccursAt(s, key, j)
  }

  /** No character of `a` appears anywhere in `b`. */
  predicate Disjoint(a: String, b: String) {
    forall i | 0 <= i < |a| :: a[i] !in b
  }

  // ---------------------------------------------------------------------------
  // Python's `s.replace(key, val)`
  // ---------------------------------------------------------------------------

  /** `val` before every character of `s` and once more at the end: `s.replace("", val)`. */
  function InsertAround(s: String, val: String): (r: String)
    ensures |r| == |s| + (|s| + 1) * |val|
  {
    if s == [] then val else val + [s[0]] + InsertAround(s[1..], val)
  }

  /** With one character, the value lands on both sides of it. */
  lemma InsertAroundSingle(c: char, val: String)
    ensures InsertAround([c], val) == val + [c] + val
  {
    assert [c][1..] == [];
  }

  /**
    Splitting the text splits the result: the value between `a` and `b` is
    written once, as the last gap of `a` and the first gap of `b`. With
    InsertAroundSingle and `InsertAround([], val) == val` this fixes every
    character of `s.replace("", val)`.
  */
  lemma {:induction false} InsertAroundConcat(a: String, b: String, val: String)
    ensures InsertAround(a + b, val) == InsertAround(a, val) + InsertAround(b, val)[|val|..]
    decreases |a|
  {
    if a == [] {
      assert a + b == b;
      assert InsertAround(b, val) == val + InsertAround(b, val)[|val|..];
    } else {
      assert (a + b)[0] == a[0] && (a + b)[1..] == a[1..] + b;
      InsertAroundConcat(a[1..], b, val);
    }
  }

  /**
    Python's `s.replace(key, val)`: scan left to right, replace the leftmost
    occurrence, continue after it; occurrences never overlap and the inserted
    text is never scanned again.
  */
  function ReplaceAll(s: String, key: String, val: String): String
    decreases |s|
  {
    if key == [] then InsertAround(s, val)
    else if s == [] then []
    else if key <= s then val + ReplaceAll(s[|key|..], key, val)
    else [s[0]] + ReplaceAll(s[1..], key, val)
  }

  /** An occurrence in `s[1..]` is an occurrence in `s`, one position later. */
  lemma ContainsTail(s: String, key: String)
    requires s != [] && Contains(s[1..], key)
    ensures Contains(s, key)
  {
    var i :| 0 <= i <= |s[1..]| - |key| && OccursAt(s[1..], key, i);
    assert s[i + 1..i + 1 + |key|] == s[1..][i..i + |key|];
    assert OccursAt(s, key, i + 1);
  }

  /** Replacing a key that does not occur changes nothing (so the `if key in text` guard is redundant). */
  lemma {:induction false} ReplaceAllAbsent(s: String, key: String, val: String)
    requires !Contains(s, key)
    ensures ReplaceAll(s, key, val) == s
    decreases |s|
  {
    assert key != [] by {
      if key == [] { assert OccursAt(s, key, 0); }
    }
    if s != [] {
      if key <= s {
        assert OccursAt(s, key, 0);
      }
      if Contains(s[1..], key) {
        ContainsTail(s, key);
      }
      ReplaceAllAbsent(s[1..], key, val);
    }
  }

  /** Replacing a key by itself gives back the original text. */
  lemma {:induction false} ReplaceAllSelf(s: String, key: String)
    ensures ReplaceAll(s, key, key) == s
    decreases |s|
  {
    if key == [] {
      InsertAroundEmpty(s);
    } else if s != [] {
      if key <= s {
        ReplaceAllSelf(s[|key|..], key);
        assert s == key + s[|key|..];
      } else {
        ReplaceAllSelf(s[1..], key);
        assert s == [s[0]] + s[1..];
      }
    }
  }

  lemma {:induction false} InsertAroundEmpty(s: String)
    ensures InsertAround(s, []) == s
  {
    if s != [] {
      InsertAroundEmpty(s[1..]);
      assert s == [s[0]] + s[1..];
    }
  }

  /** Occurrences in `s[1..]` are the occurrences in `s` that start one position later. */
  lemma OccursShift(s: String, key: String, j: nat)
    requires s != []
    ensures OccursAt(s[1..], key, j) <==> OccursAt(s, key, j + 1)
  {
    if j + |key| <= |s[1..]| {
      assert s[1..][j..j + |key|] == s[j + 1..j + 1 + |key|];
    }
  }

  /**
    A stretch of text in which no occurrence of `key` starts is copied through
    unchanged, and replacement carries on in what follows.
  */
  lemma {:induction false} ReplaceAllSkip(a: String, b: String, key: String, val: String)
    requires NoMatchBefore(a + b, key, |a|)
    ensures ReplaceAll(a + b, key, val) == a + ReplaceAll(b, key, val)
    decreases |a|
  {
    if a != [] {
      var rest := ReplaceAll(b, key, val);
      assert ReplaceAll(a + b, key, val) == [a[0]] + ReplaceAll(a[1..] + b, key, val) by {
        SkipFirst(a, b, key);
        ReplaceAllNoMatchHere(a + b, key, val);
        assert (a + b)[1..] == a[1..] + b;
      }
      assert ReplaceAll(a[1..] + b, key, val) == a[1..] + rest by {
        SkipFirst(a, b, key);
        ReplaceAllSkip(a[1..], b, key, val);
      }
      assert [a[0]] + (a[1..] + rest) == a + rest;
    } else {
      assert a + b == b;
    }
  }

  /** Where the key does not start, one character is copied through and the scan moves on. */
  lemma ReplaceAllNoMatchHere(s: String, key: String, val: String)
    requires key != [] && s != [] && !OccursAt(s, key, 0)
    ensures ReplaceAll(s, key, val) == [s[0]] + ReplaceAll(s[1..], key, val)
  {
    assert !(key <= s);
  }

  /** Helper for ReplaceAllSkip: the first character is not a match, and the rest still has none before `|a| - 1`. */
  lemma SkipFirst(a: String, b: String, key: String)
    requires a != [] && NoMatchBefore(a + b, key, |a|)
    ensures key != [] && !OccursAt(a + b, key, 0) && (a + b)[0] == a[0]
    ensures NoMatchBefore(a[1..] + b, key, |a| - 1)
  {
    var s := a + b;
    assert !OccursAt(s, key, 0);
    assert key != [] by {
      if key == [] { assert OccursAt(s, key, 0); }
    }
    assert s[1..] == a[1..] + b;
    forall j | 0 <= j < |a| - 1 ensures !OccursAt(a[1..] + b, key, j) {
      OccursShift(s, key, j);
    }
  }

  /** A text that starts with the key has that first occurrence replaced. */
  lemma ReplaceAllAtMatch(key: String, b: String, val: String)
    requires key != []
    ensures ReplaceAll(key + b, key, val) == val + ReplaceAll(b, key, val)
  {
    assert key <= key + b;
    assert (key + b)[|key|..] == b;
  }

  /** A window of `r` that holds a character of `val` cannot be the key. */
  lemma WindowHitsValue(r: String, key: String, val: String, i: nat, k: nat)
    requires Disjoint(val, key) && val != []
    requires k < |key| && i + |key| <= |r| && r[i + k] == val[0]
    ensures !OccursAt(r, key, i)
  {
    assert r[i..i + |key|][k] == val[0];
    assert val[0] !in key;
    assert key[k] in key;
  }

  /**
    When the first position at which no occurrence may start is broken up by a
    replacement or by a character that differs from the key, the result has no
    occurrence at position 0. Helper for ReplaceAllLeavesNoKey.
  */
  lemma {:induction false} NoKeyAtFront(s: String, key: String, val: String, n: nat)
    requires key != [] && val != [] && Disjoint(val, key)
    requires !(key <= s)
    requires 1 <= n <= |key| && n <= |s|
    requires NoMatchBefore(s, key, n)
    ensures !OccursAt(ReplaceAll(s, key, val), key, 0)
    decreases |key| - n
  {
    if n == |key| || n == |s| {
      FrontCopied(s, key, val, n);
    } else if OccursAt(s, key, n) {
      FrontBrokenByValue(s, key, val, n);
    } else {
      NoKeyAtFront(s, key, val, n + 1);
    }
  }

  /** Helper for NoKeyAtFront: the first `n` characters are copied, and they cannot start the key. */
  lemma FrontCopied(s: String, key: String, val: String, n: nat)
    requires key != [] && !(key <= s)
    requires 1 <= n <= |key| && n <= |s| && (n == |key| || n == |s|)
    requires NoMatchBefore(s, key, n)
    ensures !OccursAt(ReplaceAll(s, key, val), key, 0)
  {
    var r := ReplaceAll(s, key, val);
    assert r == s[..n] + ReplaceAll(s[n..], key, val) by {
      assert s == s[..n] + s[n..];
      ReplaceAllSkip(s[..n], s[n..], key, val);
    }
    if n == |key| {
      assert r[..|key|] == s[..|key|];
    } else {
      assert r == s by {
        assert s[n..] == [];
        assert s[..n] == s;
      }
    }
  }

  /** Helper for NoKeyAtFront: an occurrence at `n` puts a character of `val` inside the first window. */
  lemma FrontBrokenByValue(s: String, key: String, val: String, n: nat)
    requires key != [] && val != [] && Disjoint(val, key)
    requires 1 <= n < |key| && n < |s|
    requires NoMatchBefore(s, key, n) && OccursAt(s, key, n)
    ensures !OccursAt(ReplaceAll(s, key, val), key, 0)
  {
    var r := ReplaceAll(s, key, val);
    var tail := s[n + |key|..];
    assert r == s[..n] + (val + ReplaceAll(tail, key, val)) by {
      assert s == s[..n] + s[n..];
      ReplaceAllSkip(s[..n], s[n..], key, val);
      assert s[n..] == key + tail;
      ReplaceAllAtMatch(key, tail, val);
    }
    assert r[n] == val[0];
    if |key| <= |r| {
      WindowHitsValue(r, key, val, 0, n);
    }
  }

  /**
    Replace-all leaves no occurrence of the key behind, provided the value is
    non-empty and shares no character with the key (for instance `{{B1}}` by
    `LOT-44`). Without these conditions an occurrence can re-form from the
    pieces around a replaced one; see ReplaceAllCanReform.
  */
  lemma {:induction false} ReplaceAllLeavesNoKey(s: String, key: String, val: String)
    requires key != [] && val != [] && Disjoint(val, key)
    ensures !Contains(ReplaceAll(s, key, val), key)
    decreases |s|
  {
    if s == [] {
      return;
    }
    if key <= s {
      ReplaceAllLeavesNoKey(s[|key|..], key, val);
      assert ReplaceAll(s, key, val) == val + ReplaceAll(s[|key|..], key, val);
      NoKeyAfterValue(val, ReplaceAll(s[|key|..], key, val), key);
    } else {
      ReplaceAllLeavesNoKey(s[1..], key, val);
      assert ReplaceAll(s, key, val) == [s[0]] + ReplaceAll(s[1..], key, val);
      NoKeyAtFront(s, key, val, 1);
      NoKeyAfterFirst(ReplaceAll(s, key, val), key);
    }
  }

  /** Helper for ReplaceAllLeavesNoKey: a key-free text after a value that shares no character with the key. */
  lemma NoKeyAfterValue(val: String, rest: String, key: String)
    requires key != [] && val != [] && Disjoint(val, key) && !Contains(rest, key)
    ensures !Contains(val + rest, key)
  {
    var r := val + rest;
    forall i | 0 <= i <= |r| - |key| ensures !OccursAt(r, key, i) {
      if i < |val| {
        assert r[i..i + |key|][0] == val[i];
        assert key[0] in key;
      } else {
        assert rest[i - |val|..i - |val| + |key|] == r[i..i + |key|];
        assert !OccursAt(rest, key, i - |val|);
      }
    }
  }

  /** Helper for ReplaceAllLeavesNoKey: no match at the front and none in the tail means none at all. */
  lemma NoKeyAfterFirst(r: String, key: String)
    requires r != [] && !OccursAt(r, key, 0) && !Contains(r[1..], key)
    ensures !Contains(r, key)
  {
    forall i | 1 <= i <= |r| - |key| ensures !OccursAt(r, key, i) {
      OccursShift(r, key, i - 1);
    }
  }

  /** With an empty value, an occurrence can re-form out of the text around a removed one. */
  lemma ReplaceAllCanReform()
    ensures ReplaceAll("BB22", "B2", "") == "B2"
    ensures Contains(ReplaceAll("BB22", "B2", ""), "B2")
  {
    var s: String := "BB22";
    assert s[1] == 'B' && "B2"[1] == '2';
    assert !("B2" <= s);
    assert s[1..] == "B22";
    assert "B2" <= s[1..];
    assert s[1..][2..] == "2";
    assert ReplaceAll("2", "B2", "") == "2" by {
      assert !("B2" <= "2");
      assert "2"[1..] == [];
    }
    assert OccursAt("B2", "B2", 0);
  }
}
