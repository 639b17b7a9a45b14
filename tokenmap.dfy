/**
  The token mapping: a Python dict from placeholder token to value, kept in
  insertion order, the fold that applies it to a paragraph's text, and the
  mapping the generator builds from the form fields (pss.py:104-119).
*/
module TokenMap {
  import opened Text
  import opened Wrappers

  /** A Python dict, as its `items()` in insertion order. Keys are unique (see Put). */
  type Mapping = seq<(String, String)>

  predicate HasKey(m: Mapping, key: String) {
    exists i | 0 <= i < |m| :: m[i].0 == key
  }

  predicate KeysDistinct(m: Mapping) {
    forall i, j | 0 <= i < j < |m| :: m[i].0 != m[j].0
  }

  /**
    `m[key] = val`: a new key goes to the end; an existing key keeps its
    position and takes the new value.
  */
  function Put(m: Mapping, key: String, val: String): Mapping {
    if HasKey(m, key) then
      seq(|m|, i requires 0 <= i < |m| => if m[i].0 == key then (key, val) else m[i])
    else
      m + [(key, val)]
  }

  /**
    After `m[key] = val` the key is present exactly once with the new value,
    every other entry keeps its place and value, and the dict grows by one
    entry exactly when the key was new.
  */
  lemma PutSpec(m: Mapping, key: String, val: String)
    requires KeysDistinct(m)
    ensures KeysDistinct(Put(m, key, val))
    ensures HasKey(Put(m, key, val), key)
    ensures forall i | 0 <= i < |Put(m, key, val)| :: Put(m, key, val)[i].0 == key ==> Put(m, key, val)[i].1 == val
    ensures forall i | 0 <= i < |m| :: m[i].0 != key ==> Put(m, key, val)[i] == m[i]
    ensures |Put(m, key, val)| == if HasKey(m, key) then |m| else |m| + 1
  {
    var r := Put(m, key, val);
    if HasKey(m, key) {
      var k :| 0 <= k < |m| && m[k].0 == key;
      assert r[k].0 == key;
    } else {
      assert r[|m|].0 == key;
      forall i, j | 0 <= i < j < |r| ensures r[i].0 != r[j].0 {
        if j == |m| {
          assert m[i].0 != key;
        }
      }
    }
  }

  // ---------------------------------------------------------------------------
  // Applying a mapping to one paragraph's text (pss.py:14-18)
  // ---------------------------------------------------------------------------

  /** One iteration of the loop over `mapping.items()`: `if key in t: t = t.replace(key, val)`. */
  function Step(text: String, entry: (String, String)): String {
    if Contains(text, entry.0) then ReplaceAll(text, entry.0, entry.1) else text
  }

  /** Every entry applied in insertion order, each as a literal replace-all on the text so far. */
  function ApplyMapping(text: String, m: Mapping): String
    decreases |m|
  {
    if m == [] then text else ApplyMapping(Step(text, m[0]), m[1..])
  }

  /** No key of `m` occurs in `text`. */
  predicate NoKeyIn(text: String, m: Mapping) {
    forall i | 0 <= i < |m| :: !Contains(text, m[i].0)
  }

  /** The `key in text` guard changes nothing: each step is exactly a replace-all. */
  lemma StepIsReplaceAll(text: String, entry: (String, String))
    ensures Step(text, entry) == ReplaceAll(text, entry.0, entry.1)
  {
    if !Contains(text, entry.0) {
      ReplaceAllAbsent(text, entry.0, entry.1);
    }
  }

  /** Applying a mapping is applying its first part and then the rest. */
  lemma {:induction false} ApplyMappingAppend(text: String, m1: Mapping, m2: Mapping)
    ensures ApplyMapping(text, m1 + m2) == ApplyMapping(ApplyMapping(text, m1), m2)
    decreases |m1|
  {
    if m1 == [] {
      assert m1 + m2 == m2;
    } else {
      assert (m1 + m2)[0] == m1[0];
      assert (m1 + m2)[1..] == m1[1..] + m2;
      ApplyMappingAppend(Step(text, m1[0]), m1[1..], m2);
    }
  }

  /** A text that holds none of the keys comes out unchanged. */
  lemma {:induction false} ApplyMappingAbsent(text: String, m: Mapping)
    requires NoKeyIn(text, m)
    ensures ApplyMapping(text, m) == text
    decreases |m|
  {
    if m != [] {
      assert !Contains(text, m[0].0);
      assert NoKeyIn(text, m[1..]) by {
        forall i | 0 <= i < |m[1..]| ensures !Contains(text, m[1..][i].0) {
          assert m[1..][i] == m[i + 1];
        }
      }
      ApplyMappingAbsent(text, m[1..]);
    }
  }

  // ---------------------------------------------------------------------------
  // The mapping built from the form (pss.py:104-119)
  // ---------------------------------------------------------------------------

  /** A field name in its delimiter-wrapped spelling, `{{name}}`. */
  function Wrap(name: String): (r: String)
    ensures |r| == |name| + 4 && r[2..|r| - 2] == name
  {
    "{{" + name + "}}"
  }

  const DateName: String := "DD/MM/YYYY"
  const DefaultPo: String := "PO012"

  /** `po_id.strip() if po_id and po_id.strip() else "PO012"` */
  function PoValue(poId: String): String {
    var stripped := Strip(poId);
    if stripped != [] then stripped else DefaultPo
  }

  /**
    The P.O. value is never empty: it is the default literal for an input that
    is empty or whitespace, and otherwise the input with its surrounding
    whitespace removed (which may itself be the literal).
  */
  lemma PoValueSpec(poId: String)
    ensures PoValue(poId) != []
    ensures AllSpace(poId) ==> PoValue(poId) == DefaultPo
    ensures !AllSpace(poId) ==> PoValue(poId) == Strip(poId)
    ensures !AllSpace(poId) ==> !IsSpace(PoValue(poId)[0]) && !IsSpace(PoValue(poId)[|PoValue(poId)| - 1])
  {
    if AllSpace(poId) {
      BlankPoIsDefault(poId);
      assert |DefaultPo| == 5;
    } else {
      NonBlankPoIsStripped(poId);
    }
  }

  /** Every blank P.O., the empty one included, is replaced by the default literal. */
  lemma BlankPoIsDefault(poId: String)
    requires AllSpace(poId)
    ensures PoValue(poId) == DefaultPo
  {
    StripEmptyIffAllSpace(poId);
  }

  /** Any other P.O. is kept with its surrounding whitespace removed, and is not empty. */
  lemma NonBlankPoIsStripped(poId: String)
    requires !AllSpace(poId)
    ensures PoValue(poId) == Strip(poId) != []
    ensures !IsSpace(PoValue(poId)[0]) && !IsSpace(PoValue(poId)[|PoValue(poId)| - 1])
  {
    StripEmptyIffAllSpace(poId);
    StripEnds(poId);
  }

  /** The mapping the generator builds, as the dict's items in insertion order. */
  function TokenMapping(date: String, poValue: String, b1: String, b2: String, b3: String, b4: String): Mapping {
    [ ("{{DD/MM/YYYY}}", date), ("DD/MM/YYYY", date),
      ("{{PO012}}", poValue),
      ("{{B1}}", b1), ("B1", b1),
      ("{{B2}}", b2), ("B2", b2),
      ("{{B3}}", b3), ("B3", b3),
      ("{{B4}}", b4), ("B4", b4) ]
  }

  /** Lines 104-119: the P.O. value defaulted (line 108), then the dict filled. */
  method BuildMapping(date: String, poId: String, b1: String, b2: String, b3: String, b4: String)
    returns (mapping: Mapping)
    ensures mapping == TokenMapping(date, PoValue(poId), b1, b2, b3, b4)
  {
    var poValue := PoValue(poId);
    mapping := FillMapping(date, poValue, b1, b2, b3, b4);
  }

  /**
    The assignments of lines 104-119 for a given P.O. value, key by key in
    the source's order; every key is new when it is assigned.
  */
  method FillMapping(date: String, poValue: String, b1: String, b2: String, b3: String, b4: String)
    returns (mapping: Mapping)
    ensures mapping == TokenMapping(date, poValue, b1, b2, b3, b4)
  {
    mapping := [];
    mapping := Put(mapping, "{{DD/MM/YYYY}}", date);
    mapping := Put(mapping, "DD/MM/YYYY", date);
    ghost var datePart := mapping;

    var poKeys: seq<String> := ["{{PO012}}"];
    for i := 0 to |poKeys|
      invariant mapping == if i == 0 then datePart else Put(datePart, "{{PO012}}", poValue)
    {
      mapping := Put(mapping, poKeys[i], poValue);
    }

    mapping := Put(mapping, "{{B1}}", b1);
    mapping := Put(mapping, "B1", b1);
    mapping := Put(mapping, "{{B2}}", b2);
    mapping := Put(mapping, "B2", b2);
    mapping := Put(mapping, "{{B3}}", b3);
    mapping := Put(mapping, "B3", b3);
    mapping := Put(mapping, "{{B4}}", b4);
    mapping := Put(mapping, "B4", b4);
    AssignmentsGiveTokenMapping(date, poValue, b1, b2, b3, b4);
  }

  /** The eleven assignments, each of a new key, leave exactly the eleven entries in order. */
  lemma AssignmentsGiveTokenMapping(date: String, poValue: String, b1: String, b2: String, b3: String, b4: String)
    ensures
      var m3 := Put(Put(Put([], "{{DD/MM/YYYY}}", date), "DD/MM/YYYY", date), "{{PO012}}", poValue);
      var m7 := Put(Put(Put(Put(m3, "{{B1}}", b1), "B1", b1), "{{B2}}", b2), "B2", b2);
      Put(Put(Put(Put(m7, "{{B3}}", b3), "B3", b3), "{{B4}}", b4), "B4", b4) == TokenMapping(date, poValue, b1, b2, b3, b4)
  {
    var full := TokenMapping(date, poValue, b1, b2, b3, b4);
    TokenMappingKeysDistinct(date, poValue, b1, b2, b3, b4);
    assert full[..0] == [];
    AssignPair(full, 0, "{{DD/MM/YYYY}}", "DD/MM/YYYY", date);
    PutNext(full, 2);
    AssignPair(full, 3, "{{B1}}", "B1", b1);
    AssignPair(full, 5, "{{B2}}", "B2", b2);
    AssignPair(full, 7, "{{B3}}", "B3", b3);
    AssignPair(full, 9, "{{B4}}", "B4", b4);
    assert full[..11] == full;
  }

  /** Two consecutive entries of a dict with distinct keys, assigned in order. */
  lemma AssignPair(full: Mapping, k: nat, first: String, second: String, val: String)
    requires KeysDistinct(full) && k + 2 <= |full|
    requires full[k] == (first, val) && full[k + 1] == (second, val)
    ensures Put(Put(full[..k], first, val), second, val) == full[..k + 2]
  {
    PutNext(full, k);
    PutNext(full, k + 1);
  }

  /** Assigning the entries of a dict with distinct keys in order rebuilds it one entry at a time. */
  lemma PutNext(full: Mapping, k: nat)
    requires KeysDistinct(full) && k < |full|
    ensures Put(full[..k], full[k].0, full[k].1) == full[..k + 1]
  {
    assert !HasKey(full[..k], full[k].0);
  }

  /** The builder never assigns a key twice, so the dict holds eleven distinct keys. */
  lemma TokenMappingKeysDistinct(date: String, poValue: String, b1: String, b2: String, b3: String, b4: String)
    ensures KeysDistinct(TokenMapping(date, poValue, b1, b2, b3, b4))
    ensures |TokenMapping(date, poValue, b1, b2, b3, b4)| == 11
  {
    var m := TokenMapping(date, poValue, b1, b2, b3, b4);
    assert "{{B1}}"[3] == '1' && "{{B2}}"[3] == '2' && "{{B3}}"[3] == '3' && "{{B4}}"[3] == '4';
    assert "B1"[1] == '1' && "B2"[1] == '2' && "B3"[1] == '3' && "B4"[1] == '4';
  }

  /**
    The P.O. value is registered under its wrapped key only; the bare
    spelling `PO012` is not a key.
  */
  lemma PoRegisteredWrappedOnly(date: String, poValue: String, b1: String, b2: String, b3: String, b4: String)
    ensures var m := TokenMapping(date, poValue, b1, b2, b3, b4);
      && m[2] == (Wrap(DefaultPo), poValue)
      && !HasKey(m, DefaultPo)
  {
    var m := TokenMapping(date, poValue, b1, b2, b3, b4);
    WrapLiterals();
    forall i | 0 <= i < |m| ensures m[i].0 != DefaultPo {
      assert |m[i].0| != 5;
    }
  }

  /**
    The date and every batch slot are registered under the wrapped spelling
    immediately followed by the bare one, both with the same value.
  */
  lemma WrappedBeforeBare(date: String, poValue: String, b1: String, b2: String, b3: String, b4: String)
    ensures var m := TokenMapping(date, poValue, b1, b2, b3, b4);
      && m[0] == (Wrap(DateName), date) && m[1] == (DateName, date)
      && m[3] == (Wrap("B1"), b1) && m[4] == ("B1", b1)
      && m[5] == (Wrap("B2"), b2) && m[6] == ("B2", b2)
      && m[7] == (Wrap("B3"), b3) && m[8] == ("B3", b3)
      && m[9] == (Wrap("B4"), b4) && m[10] == ("B4", b4)
  {
    WrapLiterals();
  }

  lemma WrapLiterals()
    ensures Wrap(DateName) == "{{DD/MM/YYYY}}" && Wrap(DefaultPo) == "{{PO012}}"
    ensures Wrap("B1") == "{{B1}}" && Wrap("B2") == "{{B2}}" && Wrap("B3") == "{{B3}}" && Wrap("B4") == "{{B4}}"
  {
  }

  // ---------------------------------------------------------------------------
  // Why the wrapped spelling must come first
  // ---------------------------------------------------------------------------

  /**
    A wrapped token `{{name}}` at the end of a text comes out as exactly the
    value, braces included, when the wrapped spelling is applied before the
    bare one: the earlier keys do not touch the text, the wrapped key consumes
    the whole token, and the later keys (the bare spelling among them) find
    nothing in the result.
  */
  lemma {:induction false} WrappedThenBare(p: String, name: String, val: String, pre: Mapping, post: Mapping)
    requires NoKeyIn(p + Wrap(name), pre)
    requires NoMatchBefore(p + Wrap(name), Wrap(name), |p|)
    requires NoKeyIn(p + val, [(name, val)] + post)
    ensures ApplyMapping(p + Wrap(name), pre + [(Wrap(name), val), (name, val)] + post) == p + val
  {
    var t := p + Wrap(name);
    var tail := [(name, val)] + post;
    assert pre + [(Wrap(name), val), (name, val)] + post == pre + ([(Wrap(name), val)] + tail);
    ApplyMappingAppend(t, pre, [(Wrap(name), val)] + tail);
    ApplyMappingAbsent(t, pre);
    TrailingKeyStep(p, Wrap(name), val);
    assert ([(Wrap(name), val)] + tail)[1..] == tail;
    ApplyMappingAbsent(p + val, tail);
  }

  /** A key with a character that does not appear in `s` does not occur in `s`. */
  lemma CharAbsent(s: String, key: String, k: nat)
    requires k < |key| && key[k] !in s
    ensures !Contains(s, key)
  {
    forall i | 0 <= i <= |s| - |key| ensures !OccursAt(s, key, i) {
      assert s[i..i + |key|][k] == s[i + k];
    }
  }

  /** A key whose first character does not appear in `p` cannot start inside `p`. */
  lemma FirstCharAbsent(p: String, rest: String, key: String)
    requires key != [] && key[0] !in p
    ensures NoMatchBefore(p + rest, key, |p|)
  {
    forall j | 0 <= j < |p| ensures !OccursAt(p + rest, key, j) {
      if j + |key| <= |p + rest| {
        assert (p + rest)[j..j + |key|][0] == p[j];
      }
    }
  }

  /**
    A `{{B1}}` token at the end of a text comes out as exactly the B1 value,
    with no braces left, whatever the date, the P.O. and the other slots are,
    provided the text before it has none of the characters the other keys
    need (`D` for the date keys, `0` for the P.O. key, `B` for the slot keys,
    `{` for an earlier start of the token) and the value has no `B`. For
    example "Sending you Pre-Shipment sample of {{B1}}" with B1 = "LOT-44"
    becomes "Sending you Pre-Shipment sample of LOT-44".
  */
  lemma WrappedSlotComesOutClean(p: String, date: String, poValue: String, b1: String, b2: String, b3: String, b4: String)
    requires 'D' !in p && '0' !in p && 'B' !in p && '{' !in p && 'B' !in b1
    ensures ApplyMapping(p + "{{B1}}", TokenMapping(date, poValue, b1, b2, b3, b4)) == p + b1
  {
    var m := TokenMapping(date, poValue, b1, b2, b3, b4);
    WrapLiterals();
    assert m == m[..3] + [(Wrap("B1"), b1), ("B1", b1)] + m[5..];
    EarlierKeysAbsent(p, m[..3], date, poValue);
    TokenStartsAtEnd(p);
    LaterKeysAbsent(p + b1, [("B1", b1)] + m[5..], b1, b2, b3, b4);
    WrappedThenBare(p, "B1", b1, m[..3], m[5..]);
  }

  /** The date keys contain a `D` and the P.O. key a `0`; the text has neither. */
  lemma EarlierKeysAbsent(p: String, pre: Mapping, date: String, po: String)
    requires pre == [("{{DD/MM/YYYY}}", date), ("DD/MM/YYYY", date), ("{{PO012}}", po)]
    requires 'D' !in p && '0' !in p
    ensures NoKeyIn(p + "{{B1}}", pre)
  {
    var t := p + "{{B1}}";
    assert 'D' !in "{{B1}}" && '0' !in "{{B1}}";
    assert 'D' !in t && '0' !in t;
    CharAbsent(t, pre[0].0, 2);
    CharAbsent(t, pre[1].0, 0);
    CharAbsent(t, pre[2].0, 4);
  }

  /** With no `{` in the text before it, the token's only occurrence is at its own place. */
  lemma TokenStartsAtEnd(p: String)
    requires '{' !in p
    ensures NoMatchBefore(p + Wrap("B1"), Wrap("B1"), |p|)
  {
    WrapLiterals();
    FirstCharAbsent(p, "{{B1}}", "{{B1}}");
  }

  /** The bare B1 key and the keys of the later slots all contain a `B`, which the result has not. */
  lemma LaterKeysAbsent(t: String, tail: Mapping, b1: String, b2: String, b3: String, b4: String)
    requires tail == [("B1", b1), ("{{B2}}", b2), ("B2", b2), ("{{B3}}", b3), ("B3", b3), ("{{B4}}", b4), ("B4", b4)]
    requires 'B' !in t
    ensures NoKeyIn(t, tail)
  {
    forall i | 0 <= i < |tail| ensures !Contains(t, tail[i].0) {
      var k := if |tail[i].0| == 2 then 0 else 2;
      assert tail[i].0[k] == 'B';
      CharAbsent(t, tail[i].0, k);
    }
  }

  /**
    The conditions of WrappedThenBare are on the joined texts, and they are
    needed: a text ending in `B` followed by `{{B1}}`, with B1 = "1", loses
    the `B` as well, because the bare `B1` forms again across the join
    ("Lot B{{B1}}" becomes "Lot 1").
  */
  lemma ReformsAcrossJoin(q: String, date: String, poValue: String, b2: String, b3: String, b4: String)
    requires 'D' !in q && '0' !in q && 'B' !in q && '{' !in q
    ensures ApplyMapping(q + "B" + "{{B1}}", TokenMapping(date, poValue, "1", b2, b3, b4)) == q + "1"
  {
    var m := TokenMapping(date, poValue, "1", b2, b3, b4);
    var t := q + "B" + "{{B1}}";
    var mid: Mapping := [("{{B1}}", "1"), ("B1", "1")];
    assert m == m[..3] + (mid + m[5..]);
    assert ApplyMapping(t, m[..3]) == t by {
      EarlierKeysAbsent(q + "B", m[..3], date, poValue);
      ApplyMappingAbsent(t, m[..3]);
    }
    ApplyMappingAppend(t, m[..3], mid + m[5..]);
    ApplyMappingAppend(t, mid, m[5..]);
    SlotB1Reforms(q);
    assert ApplyMapping(q + "1", m[5..]) == q + "1" by {
      LaterSlotsAbsent(q + "1", m[5..], b2, b3, b4);
      ApplyMappingAbsent(q + "1", m[5..]);
    }
  }

  /** Helper for ReformsAcrossJoin: the B1 entries alone, wrapped then bare. */
  lemma SlotB1Reforms(q: String)
    requires 'B' !in q && '{' !in q
    ensures ApplyMapping(q + "B" + "{{B1}}", [("{{B1}}", "1"), ("B1", "1")]) == q + "1"
  {
    var p := q + "B";
    assert Step(p + "{{B1}}", ("{{B1}}", "1")) == q + "B1" by {
      assert '{' !in p;
      TokenStartsAtEnd(p);
      WrapLiterals();
      TrailingKeyStep(p, "{{B1}}", "1");
      assert p + "1" == q + ("B" + "1");
    }
    assert Step(q + "B1", ("B1", "1")) == q + "1" by {
      FirstCharAbsent(q, "B1", "B1");
      TrailingKeyStep(q, "B1", "1");
    }
    var m: Mapping := [("{{B1}}", "1"), ("B1", "1")];
    assert m[1..] == [("B1", "1")] && m[1..][1..] == [];
  }

  /** A key at the end of a text, with no earlier occurrence, is replaced there and nowhere else. */
  lemma TrailingKeyStep(p: String, key: String, val: String)
    requires key != [] && NoMatchBefore(p + key, key, |p|)
    ensures Step(p + key, (key, val)) == p + val
  {
    assert OccursAt(p + key, key, |p|) by {
      assert (p + key)[|p|..|p| + |key|] == key;
    }
    ReplaceAllSkip(p, key, key, val);
    ReplaceAllAtMatch(key, [], val);
    assert key + [] == key && val + [] == val;
  }

  /** The keys of the slots after B1 all contain a `B`, which the text has not. */
  lemma LaterSlotsAbsent(t: String, post: Mapping, b2: String, b3: String, b4: String)
    requires post == [("{{B2}}", b2), ("B2", b2), ("{{B3}}", b3), ("B3", b3), ("{{B4}}", b4), ("B4", b4)]
    requires 'B' !in t
    ensures NoKeyIn(t, post)
  {
    forall i | 0 <= i < |post| ensures !Contains(t, post[i].0) {
      var k := if |post[i].0| == 2 then 0 else 2;
      assert post[i].0[k] == 'B';
      CharAbsent(t, post[i].0, k);
    }
  }

  /**
    Applied the other way round, the bare key eats the middle of the wrapped
    token and leaves the braces: with B1 = "LOT-44", `{{B1}}` would become
    `{{LOT-44}}`. This holds for every name that does not start with a brace
    and every value that does not contain the name's first character.
  */
  lemma BareFirstLeavesBraces(name: String, val: String)
    requires name != [] && name[0] != '{' && name[0] != '}' && name[0] !in val
    ensures ApplyMapping(Wrap(name), [(name, val), (Wrap(name), val)]) == Wrap(val)
  {
    var m: Mapping := [(name, val), (Wrap(name), val)];
    BareKeyInsideToken(name, val);
    var w := Wrap(val);
    assert w == "{{" + val + "}}";
    assert Wrap(name)[2] == name[0];
    assert name[0] !in w by {
      assert w == "{{" + (val + "}}");
    }
    CharAbsent(w, Wrap(name), 2);
    assert Step(w, (Wrap(name), val)) == w;
    assert m[1..] == [(Wrap(name), val)] && m[1..][1..] == [];
    calc {
      ApplyMapping(Wrap(name), m);
      ApplyMapping(Step(Wrap(name), (name, val)), m[1..]);
      ApplyMapping(w, [(Wrap(name), val)]);
      ApplyMapping(Step(w, (Wrap(name), val)), []);
      w;
    }
  }

  /** The bare key matches inside the wrapped token, between the braces. */
  lemma BareKeyInsideToken(name: String, val: String)
    requires name != [] && name[0] != '{' && name[0] != '}'
    ensures Step(Wrap(name), (name, val)) == Wrap(val)
  {
    var t := Wrap(name);
    assert t == "{{" + (name + "}}");
    assert OccursAt(t, name, 2) by {
      assert t[2..2 + |name|] == name;
    }
    FirstCharAbsent("{{", name + "}}", name);
    ReplaceAllSkip("{{", name + "}}", name, val);
    ReplaceAllAtMatch(name, "}}", val);
    CharAbsent("}}", name, 0);
    ReplaceAllAbsent("}}", name, val);
    assert "{{" + (val + "}}") == Wrap(val);
  }
}
