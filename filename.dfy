/**
  The download file name (pss.py:133-136): a label for the code, the last
  three characters of the P.O. with the characters a file name cannot hold
  removed, and the container numbers written in decimal.
*/
module Filename {
  import opened Text
  import opened Wrappers
  import opened Template
  import opened TokenMap

  /** The label in the file name: MOD for "001", FAR for "002", GEN for every other code. */
  function Suffix(code: String): (s: String)
    ensures |s| == 3
    ensures s == "MOD" <==> code == "001"
    ensures s == "FAR" <==> code == "002"
    ensures s == "GEN" <==> code != "001" && code != "002"
  {
    CodeLabel(code).GetOr("GEN")
  }

  // ---------------------------------------------------------------------------
  // Removing the characters a file name cannot hold
  // ---------------------------------------------------------------------------

  /** The class `[\/:*?"<>|]`: the backslash in it only escapes the slash and is not itself removed. */
  predicate IsForbidden(c: char) {
    c == '/' || c == ':' || c == '*' || c == '?' || c == '"' || c == '<' || c == '>' || c == '|'
  }

  predicate Clean(s: String) {
    forall i | 0 <= i < |s| :: !IsForbidden(s[i])
  }

  /** `re.sub(r'[\/:*?"<>|]', '', po)`: every forbidden character dropped, the rest kept in order. */
  function SafePo(po: String): (r: String)
    ensures |r| <= |po|
    ensures Clean(r)
    decreases |po|
  {
    if po == [] then []
    else if IsForbidden(po[0]) then SafePo(po[1..])
    else [po[0]] + SafePo(po[1..])
  }

  /** Removal works character by character, so it distributes over concatenation. */
  lemma {:induction false} SafePoConcat(a: String, b: String)
    ensures SafePo(a + b) == SafePo(a) + SafePo(b)
    decreases |a|
  {
    if a != [] {
      assert (a + b)[0] == a[0];
      assert (a + b)[1..] == a[1..] + b;
      SafePoConcat(a[1..], b);
    } else {
      assert a + b == b;
    }
  }

  /** A P.O. with nothing to remove is kept as it is; in particular removal is idempotent. */
  lemma {:induction false} SafePoClean(po: String)
    requires Clean(po)
    ensures SafePo(po) == po
    decreases |po|
  {
    if po != [] {
      SafePoClean(po[1..]);
      assert po == [po[0]] + po[1..];
    }
  }

  /** Exactly the forbidden characters go: every other character keeps its number of occurrences. */
  lemma {:induction false} SafePoKeepsOthers(po: String, c: char)
    ensures IsForbidden(c) ==> multiset(SafePo(po))[c] == 0
    ensures !IsForbidden(c) ==> multiset(SafePo(po))[c] == multiset(po)[c]
    decreases |po|
  {
    if po != [] {
      SafePoKeepsOthers(po[1..], c);
      assert po == [po[0]] + po[1..];
      if !IsForbidden(po[0]) {
        assert multiset([po[0]] + SafePo(po[1..])) == multiset([po[0]]) + multiset(SafePo(po[1..]));
      }
    }
  }

  /** `safe_po[-3:]` when there are at least three characters, "000" otherwise. */
  function PoSuffix(safe: String): (r: String)
    ensures |r| == 3
    ensures |safe| >= 3 ==> safe == safe[..|safe| - 3] + r
    ensures |safe| < 3 ==> r == "000"
  {
    if |safe| >= 3 then safe[|safe| - 3..] else "000"
  }

  // ---------------------------------------------------------------------------
  // Decimal integers, as `f"{int(n)}"` writes them
  // ---------------------------------------------------------------------------

  predicate IsDigit(c: char) {
    '0' <= c <= '9'
  }

  predicate AllDigits(s: String) {
    forall i | 0 <= i < |s| :: IsDigit(s[i])
  }

  function DigitChar(d: nat): (c: char)
    requires d < 10
    ensures IsDigit(c)
  {
    ('0' as int + d) as char
  }

  function DigitValue(c: char): nat
    requires IsDigit(c)
  {
    c as int - '0' as int
  }

  /** The digits of `n`, most significant first, with no leading zero. */
  function NatToDecimal(n: nat): (s: String)
    ensures s != [] && AllDigits(s)
    ensures |s| > 1 ==> s[0] != '0'
    decreases n
  {
    if n < 10 then [DigitChar(n)] else NatToDecimal(n / 10) + [DigitChar(n % 10)]
  }

  function DecimalValue(s: String): nat
    requires AllDigits(s)
    decreases |s|
  {
    if s == [] then 0 else DecimalValue(s[..|s| - 1]) * 10 + DigitValue(s[|s| - 1])
  }

  function IntToDecimal(x: int): (s: String)
    ensures s != [] && ' ' !in s
  {
    if x < 0 then "-" + NatToDecimal(-x) else NatToDecimal(x)
  }

  /** Reads back what `IntToDecimal` writes: an optional minus sign, then at least one digit. */
  function ParseInt(s: String): Option<int> {
    if s != [] && s[0] == '-' then
      if |s| > 1 && AllDigits(s[1..]) then Some(-(DecimalValue(s[1..]) as int)) else None
    else if s != [] && AllDigits(s) then Some(DecimalValue(s))
    else None
  }

  lemma {:induction false} NatDecimalRoundTrip(n: nat)
    ensures DecimalValue(NatToDecimal(n)) == n
    decreases n
  {
    if n >= 10 {
      NatDecimalRoundTrip(n / 10);
      var s := NatToDecimal(n);
      assert s[..|s| - 1] == NatToDecimal(n / 10);
    }
  }

  lemma IntDecimalRoundTrip(x: int)
    ensures ParseInt(IntToDecimal(x)) == Some(x)
  {
    var s := IntToDecimal(x);
    if x < 0 {
      NatDecimalRoundTrip(-x);
      assert s[1..] == NatToDecimal(-x);
    } else {
      NatDecimalRoundTrip(x);
      assert s[0] != '-';
    }
  }

  // ---------------------------------------------------------------------------
  // The file name
  // ---------------------------------------------------------------------------

  /** `f"PSS LIPL {suffix} {po_suffix} {int(current)} of {int(total)}.docx"`. */
  function ComposeFilename(code: String, poValue: String, current: int, total: int): String {
    "PSS LIPL " + Suffix(code) + " " + PoSuffix(SafePo(poValue)) + " " + IntToDecimal(current) + " of " + IntToDecimal(total) + ".docx"
  }

  /** The parts a composed file name carries. */
  datatype FilenameParts = FilenameParts(suffix: String, poSuffix: String, current: int, total: int)

  /** The position of the first `c` in `s`, or `|s|` when there is none. */
  function IndexOf(s: String, c: char): (k: nat)
    ensures k <= |s|
    ensures forall i | 0 <= i < k :: s[i] != c
    ensures k < |s| ==> s[k] == c
  {
    if s == [] then 0 else if s[0] == c then 0 else 1 + IndexOf(s[1..], c)
  }

  /** Reads a file name laid out as `ComposeFilename` lays it out. */
  function ParseFilename(name: String): Option<FilenameParts> {
    if |name| < 17 || name[..9] != "PSS LIPL " || name[12] != ' ' || name[16] != ' ' then None
    else
      var rest := name[17..];
      var k := IndexOf(rest, ' ');
      if |rest| < k + 4 || rest[k..k + 4] != " of " then None
      else
        var tail := rest[k + 4..];
        if |tail| < 5 || tail[|tail| - 5..] != ".docx" then None
        else
          var current := ParseInt(rest[..k]);
          var total := ParseInt(tail[..|tail| - 5]);
          if current.Some? && total.Some? then
            Some(FilenameParts(name[9..12], name[13..16], current.value, total.value))
          else None
  }

  lemma IndexOfAfter(a: String, b: String, c: char)
    requires c !in a && b != [] && b[0] == c
    ensures IndexOf(a + b, c) == |a|
  {
    assert (a + b)[|a|] == c;
    assert forall i | 0 <= i < |a| :: (a + b)[i] == a[i];
  }

  /** The number part of a name: `current`, " of ", `total`, ".docx", read back. */
  lemma NumbersRoundTrip(d1: String, d2: String)
    requires d1 != [] && ' ' !in d1
    ensures var rest := d1 + (" of " + d2 + ".docx");
            var k := IndexOf(rest, ' ');
            k == |d1| && |rest| >= k + 4 && rest[k..k + 4] == " of " &&
            rest[..k] == d1 &&
            var tail := rest[k + 4..];
            |tail| >= 5 && tail[|tail| - 5..] == ".docx" && tail[..|tail| - 5] == d2
  {
    var rest := d1 + (" of " + d2 + ".docx");
    IndexOfAfter(d1, " of " + d2 + ".docx", ' ');
    assert rest[|d1|..] == " of " + d2 + ".docx";
    assert rest[|d1|..][..4] == " of ";
    assert rest[|d1| + 4..] == d2 + ".docx";
  }

  /** The parts of a composed file name can always be read back. */
  lemma FilenameRoundTrip(code: String, poValue: String, current: int, total: int)
    ensures ParseFilename(ComposeFilename(code, poValue, current, total))
         == Some(FilenameParts(Suffix(code), PoSuffix(SafePo(poValue)), current, total))
  {
    var suffix := Suffix(code);
    var po := PoSuffix(SafePo(poValue));
    var d1 := IntToDecimal(current);
    var d2 := IntToDecimal(total);
    var rest := d1 + (" of " + d2 + ".docx");
    NameLayout(suffix, po, d1, d2);
    NumbersRoundTrip(d1, d2);
    IntDecimalRoundTrip(current);
    IntDecimalRoundTrip(total);
  }

  /** Where each part of a composed name sits. */
  lemma NameLayout(suffix: String, po: String, d1: String, d2: String)
    requires |suffix| == 3 && |po| == 3
    ensures var name := "PSS LIPL " + suffix + " " + po + " " + d1 + " of " + d2 + ".docx";
            |name| >= 17 && name[..9] == "PSS LIPL " && name[9..12] == suffix && name[12] == ' ' &&
            name[13..16] == po && name[16] == ' ' && name[17..] == d1 + (" of " + d2 + ".docx")
  {
    var head := "PSS LIPL " + suffix + " " + po + " ";
    var name := "PSS LIPL " + suffix + " " + po + " " + d1 + " of " + d2 + ".docx";
    assert name == head + (d1 + (" of " + d2 + ".docx"));
    assert |head| == 17;
    assert head[..9] == "PSS LIPL ";
    assert head[9..12] == suffix;
    assert head[13..16] == po;
  }

  /** Different labels, P.O. endings or container numbers never give the same file name. */
  lemma FilenameInjective(c1: String, p1: String, x1: int, y1: int, c2: String, p2: String, x2: int, y2: int)
    requires ComposeFilename(c1, p1, x1, y1) == ComposeFilename(c2, p2, x2, y2)
    ensures Suffix(c1) == Suffix(c2) && PoSuffix(SafePo(p1)) == PoSuffix(SafePo(p2))
    ensures x1 == x2 && y1 == y2
  {
    FilenameRoundTrip(c1, p1, x1, y1);
    FilenameRoundTrip(c2, p2, x2, y2);
  }

  /** Nothing the removal targets reaches the file name (a backslash in the P.O. still can). */
  lemma FilenameClean(code: String, poValue: String, current: int, total: int)
    ensures Clean(ComposeFilename(code, poValue, current, total))
  {
    var safe := SafePo(poValue);
    var po := PoSuffix(safe);
    assert Clean(po) by {
      if |safe| >= 3 {
        assert forall i | 0 <= i < 3 :: po[i] == safe[|safe| - 3 + i];
      }
    }
    assert Clean(Suffix(code));
    CleanSeparators();
    var x1 := "PSS LIPL " + Suffix(code);
    CleanConcat("PSS LIPL ", Suffix(code));
    CleanConcat(x1, " ");
    var x3 := x1 + " " + po;
    CleanConcat(x1 + " ", po);
    CleanConcat(x3, " ");
    var x5 := x3 + " " + IntToDecimal(current);
    CleanConcat(x3 + " ", IntToDecimal(current));
    CleanConcat(x5, " of ");
    var x7 := x5 + " of " + IntToDecimal(total);
    CleanConcat(x5 + " of ", IntToDecimal(total));
    CleanConcat(x7, ".docx");
  }

  /** The fixed pieces of the file name hold no forbidden character. */
  lemma CleanSeparators()
    ensures Clean("PSS LIPL ") && Clean(" ") && Clean(" of ") && Clean(".docx")
  {
  }

  lemma CleanConcat(a: String, b: String)
    requires Clean(a) && Clean(b)
    ensures Clean(a + b)
  {
    forall i | 0 <= i < |a + b| ensures !IsForbidden((a + b)[i]) {
      if i < |a| { assert (a + b)[i] == a[i]; } else { assert (a + b)[i] == b[i - |a|]; }
    }
  }

  /** A blank P.O., the empty one included, becomes "PO012", which keeps its last three characters. */
  lemma BlankPoSuffix(po: String)
    requires AllSpace(po)
    ensures PoSuffix(SafePo(PoValue(po))) == "012"
  {
    BlankPoIsDefault(po);
    DefaultPoSuffix();
  }

  /** The default literal has nothing to remove and ends in "012". */
  lemma DefaultPoSuffix()
    ensures PoSuffix(SafePo(DefaultPo)) == "012"
  {
    assert Clean(DefaultPo) by {
      assert forall i | 0 <= i < 5 :: DefaultPo[i] in "PO012";
    }
    SafePoClean(DefaultPo);
  }

  /**
    The defaults end to end: code "001", any blank P.O. (which becomes "PO012")
    and container 1 of 2 give "PSS LIPL MOD 012 1 of 2.docx".
  */
  lemma DefaultFilename(po: String)
    requires AllSpace(po)
    ensures ComposeFilename("001", PoValue(po), 1, 2) == "PSS LIPL MOD 012 1 of 2.docx"
  {
    BlankPoIsDefault(po);
    DefaultComposed();
  }

  /** The name composed from code "001", the default P.O. and container 1 of 2. */
  lemma DefaultComposed()
    ensures ComposeFilename("001", DefaultPo, 1, 2) == "PSS LIPL MOD 012 1 of 2.docx"
  {
    DefaultPoSuffix();
    assert IntToDecimal(1) == "1" && IntToDecimal(2) == "2";
    assert Suffix("001") == "MOD";
    assert ComposeFilename("001", DefaultPo, 1, 2) == "PSS LIPL " + "MOD" + " " + "012" + " " + "1" + " of " + "2" + ".docx";
    JoinDefault();
  }

  lemma JoinDefault()
    ensures "PSS LIPL " + "MOD" + " " + "012" + " " + "1" + " of " + "2" + ".docx" == "PSS LIPL MOD 012 1 of 2.docx"
  {
  }
}
