/** The string operations of the standard library that the source relies on. */
module Text {
  import opened Prelude

  // ---------------------------------------------------------------------
  // Byte length and white space.
  // ---------------------------------------------------------------------

  /** Octets of one character in UTF-8. */
  function CharBytes(c: char): nat {
    var n := c as int;
    if n < 0x80 then 1 else if n < 0x800 then 2 else if n < 0x1_0000 then 3 else 4
  }

  /** `str::len`: the number of octets, not of characters. */
  function ByteLen(s: string): nat {
    if s == "" then 0 else CharBytes(s[0]) + ByteLen(s[1..])
  }

  /** `char::is_whitespace`. */
  predicate IsSpace(c: char) {
    var n := c as int;
    0x9 <= n <= 0xD || n == 0x20 || n == 0x85 || n == 0xA0 || n == 0x1680 || 0x2000 <= n <= 0x200A
    || n == 0x2028 || n == 0x2029 || n == 0x202F || n == 0x205F || n == 0x3000
  }

  function TrimStart(s: string): string {
    if s != "" && IsSpace(s[0]) then TrimStart(s[1..]) else s
  }

  function TrimEnd(s: string): string {
    if s != "" && IsSpace(s[|s| - 1]) then TrimEnd(s[..|s| - 1]) else s
  }

  /** `str::trim`. */
  function Trim(s: string): string {
    TrimEnd(TrimStart(s))
  }

  /** `s.trim().is_empty()`. */
  predicate Blank(s: string) {
    Trim(s) == ""
  }

  lemma {:induction false} TrimEndShape(s: string)
    ensures TrimEnd(s) <= s
    ensures TrimEnd(s) != "" ==> !IsSpace(TrimEnd(s)[|TrimEnd(s)| - 1])
  {
    if s != "" && IsSpace(s[|s| - 1]) {
      TrimEndShape(s[..|s| - 1]);
    }
  }

  lemma {:induction false} TrimStartShape(s: string)
    ensures TrimStart(s) != "" ==> !IsSpace(TrimStart(s)[0])
  {
    if s != "" && IsSpace(s[0]) {
      TrimStartShape(s[1..]);
    }
  }

  predicate Spaces(s: string) {
    forall i :: 0 <= i < |s| ==> IsSpace(s[i])
  }

  /** What is left begins with no white space, and only white space is gone. */
  lemma {:induction false} TrimStartExactly(s: string, t: string)
    ensures TrimStart(s) == t <==>
            (t == "" || !IsSpace(t[0])) && exists a: string :: Spaces(a) && s == a + t
  {
    TrimStartShape(s);
    if s != "" && IsSpace(s[0]) {
      TrimStartExactly(s[1..], t);
      if a: string :| Spaces(a) && s[1..] == a + t {
        assert s == ([s[0]] + a) + t && Spaces([s[0]] + a);
      }
      if a: string :| Spaces(a) && s == a + t && (t == "" || !IsSpace(t[0])) {
        assert a != "";
        assert s[1..] == a[1..] + t;
      }
    } else {
      assert s == "" + s && Spaces("");
      if a: string :| Spaces(a) && s == a + t { assert a == ""; }
    }
  }

  lemma {:induction false} TrimEndExactly(s: string, t: string)
    ensures TrimEnd(s) == t <==>
            (t == "" || !IsSpace(t[|t| - 1])) && exists b: string :: Spaces(b) && s == t + b
  {
    TrimEndShape(s);
    if s != "" && IsSpace(s[|s| - 1]) {
      var init := s[..|s| - 1];
      TrimEndExactly(init, t);
      if b: string :| Spaces(b) && init == t + b {
        assert s == t + (b + [s[|s| - 1]]) && Spaces(b + [s[|s| - 1]]);
      }
      if b: string :| Spaces(b) && s == t + b && (t == "" || !IsSpace(t[|t| - 1])) {
        assert b != "";
        assert init == t + b[..|b| - 1];
      }
    } else {
      assert s == s + "" && Spaces("");
      if b: string :| Spaces(b) && s == t + b { assert b == ""; }
    }
  }

  predicate Trimmed(t: string) {
    t == "" || (!IsSpace(t[0]) && !IsSpace(t[|t| - 1]))
  }

  lemma TrimmedPart(s: string)
    ensures Trimmed(Trim(s)) && exists a: string, b: string :: Spaces(a) && Spaces(b) && s == a + Trim(s) + b
  {
    hide IsSpace, TrimStart, TrimEnd;
    var m, t := TrimStart(s), Trim(s);
    TrimStartExactly(s, m);
    TrimEndExactly(m, t);
    var a: string :| Spaces(a) && s == a + m;
    var b: string :| Spaces(b) && m == t + b;
    assert s == a + t + b;
    assert t != "" ==> t[0] == m[0];
  }

  lemma TrimsTo(a: string, t: string, b: string)
    requires Spaces(a) && Spaces(b) && Trimmed(t)
    ensures Trim(a + t + b) == t
  {
    hide IsSpace, TrimStart, TrimEnd;
    var s := a + t + b;
    if t == "" {
      assert s == (a + b) + "" && Spaces(a + b);
      TrimStartExactly(s, "");
      assert "" == "" + "" && Spaces("");
      TrimEndExactly("", "");
    } else {
      assert s == a + (t + b) && (t + b)[0] == t[0];
      TrimStartExactly(s, t + b);
      TrimEndExactly(t + b, t);
    }
  }

  /** The text between the white space at both ends. */
  lemma TrimExactly(s: string, t: string)
    ensures Trim(s) == t <==>
            Trimmed(t) && exists a: string, b: string :: Spaces(a) && Spaces(b) && s == a + t + b
  {
    hide Trim, Trimmed, Spaces;
    TrimmedPart(s);
    if a: string, b: string :| Trimmed(t) && Spaces(a) && Spaces(b) && s == a + t + b { TrimsTo(a, t, b); }
  }

  lemma TrimIdempotent(s: string)
    ensures Trim(Trim(s)) == Trim(s)
  {
    TrimStartShape(s);
    TrimEndShape(TrimStart(s));
  }

  /** A string with no white space at either end is its own trim. */
  lemma TrimFixed(s: string)
    requires s != "" ==> !IsSpace(s[0]) && !IsSpace(s[|s| - 1])
    ensures Trim(s) == s
  {
  }

  /** `str::to_ascii_lowercase`. */
  function AsciiLower(s: string): string {
    seq(|s|, i requires 0 <= i < |s| => if 'A' <= s[i] <= 'Z' then s[i] - 'A' + 'a' else s[i])
  }

  /** Capital ASCII letters become the letter 32 places on, and every other character stays. */
  lemma AsciiLowerExactly(s: string, i: nat)
    requires i < |s|
    ensures |AsciiLower(s)| == |s|
    ensures AsciiLower(s)[i] as int == s[i] as int + if 65 <= s[i] as int <= 90 then 32 else 0
  {
  }

  // ---------------------------------------------------------------------
  // Splitting.
  // ---------------------------------------------------------------------

  /** `str::split(c)`: always at least one piece. */
  function Split(s: string, c: char): (pieces: seq<string>)
    ensures pieces != []
  {
    if s == "" then [""]
    else if s[0] == c then [""] + Split(s[1..], c)
    else
      var rest := Split(s[1..], c);
      [[s[0]] + rest[0]] + rest[1..]
  }

  lemma {:induction false} SplitHead(a: string, c: char, b: string)
    requires c !in a
    ensures Split(a + [c] + b, c) == [a] + Split(b, c)
  {
    var s := a + [c] + b;
    if a == "" {
      assert s[1..] == b;
    } else {
      assert s[1..] == a[1..] + [c] + b;
      SplitHead(a[1..], c, b);
      assert [a[0]] + a[1..] == a;
    }
  }

  lemma {:induction false} SplitWhole(a: string, c: char)
    requires c !in a
    ensures Split(a, c) == [a]
  {
    if a != "" {
      SplitWhole(a[1..], c);
      assert [a[0]] + a[1..] == a;
    }
  }

  /** Position of the first `c`, or the length. */
  function IndexOf(s: string, c: char): (i: nat)
    ensures i <= |s|
    ensures c !in s[..i]
    ensures i < |s| ==> s[i] == c
  {
    if s == "" || s[0] == c then 0 else
      var k := IndexOf(s[1..], c);
      assert s[..1 + k] == [s[0]] + s[1..][..k];
      1 + k
  }

  // ---------------------------------------------------------------------
  // Decimal numbers.
  // ---------------------------------------------------------------------

  predicate IsDigit(c: char) {
    '0' <= c <= '9'
  }

  predicate AllDigits(s: string) {
    forall i :: 0 <= i < |s| ==> IsDigit(s[i])
  }

  function DigitsValue(s: string): nat
    requires AllDigits(s)
  {
    if s == "" then 0 else 10 * DigitsValue(s[..|s| - 1]) + (s[|s| - 1] as int - '0' as int)
  }

  /** `str::parse::<u32>`: one optional plus sign, digits, no overflow. */
  function ParseU32(s: string): Option<nat> {
    var digits := if s != "" && s[0] == '+' then s[1..] else s;
    if digits == "" || !AllDigits(digits) then None
    else if DigitsValue(digits) > U32_MAX then None
    else Some(DigitsValue(digits))
  }

  /** A number is read exactly from its digits, with leading zeros and one plus sign or without, if 32 bits hold it. */
  lemma ParseU32Exactly(s: string, n: nat)
    ensures ParseU32(s) == Some(n) <==>
            && n <= 0xFFFF_FFFF
            && exists digits: string ::
                 (s == digits || s == "+" + digits) && digits != "" && AllDigits(digits) && DigitsValue(digits) == n
  {
    hide DigitsValue;
    if ParseU32(s) == Some(n) {
      var digits := if s[0] == '+' then s[1..] else s;
      assert s == digits || s == "+" + digits;
    }
    if digits: string :|
      (s == digits || s == "+" + digits) && digits != "" && AllDigits(digits) && DigitsValue(digits) == n
    {
      assert IsDigit(digits[0]);
      assert s == "+" + digits ==> s[1..] == digits;
    }
  }

  /** `u32` in a format string. */
  function PrintNat(n: nat): (s: string)
    ensures s != "" && AllDigits(s) && DigitsValue(s) == n
  {
    var d := ['0' + (n % 10) as char];
    if n < 10 then
      assert d[..0] == "";
      d
    else
      var s := PrintNat(n / 10) + d;
      assert s[..|s| - 1] == PrintNat(n / 10);
      s
  }

  lemma PrintedParses(n: nat)
    requires n <= U32_MAX
    ensures ParseU32(PrintNat(n)) == Some(n)
  {
    var s := PrintNat(n);
    assert IsDigit(s[0]);
  }

  // ---------------------------------------------------------------------
  // The order on strings.
  // ---------------------------------------------------------------------

  /** `a < b` in the standard library's order on strings. */
  predicate Below(a: string, b: string) {
    if b == "" then false
    else if a == "" then true
    else if a[0] != b[0] then a[0] < b[0]
    else Below(a[1..], b[1..])
  }

  predicate AtMost(a: string, b: string) {
    a == b || Below(a, b)
  }

  lemma {:induction false} BelowTotal(a: string, b: string)
    ensures a == b || Below(a, b) || Below(b, a)
    ensures !(Below(a, b) && Below(b, a))
    ensures Below(a, b) ==> a != b
  {
    if a != "" && b != "" && a[0] == b[0] {
      BelowTotal(a[1..], b[1..]);
      assert a == [a[0]] + a[1..] && b == [b[0]] + b[1..];
    }
  }

  lemma {:induction false} BelowTransitive(a: string, b: string, c: string)
    requires Below(a, b) && Below(b, c)
    ensures Below(a, c)
  {
    if a != "" && a[0] == b[0] == c[0] {
      BelowTransitive(a[1..], b[1..], c[1..]);
    }
  }

  ghost predicate StrictlySorted(names: seq<string>) {
    forall i, j :: 0 <= i < j < |names| ==> Below(names[i], names[j])
  }

  /** A strictly sorted list is determined by its elements. */
  lemma {:induction false} StrictlySortedUnique(a: seq<string>, b: seq<string>)
    requires StrictlySorted(a) && StrictlySorted(b)
    requires forall s :: s in a <==> s in b
    ensures a == b
  {
    assert b != [] ==> b[0] in b;
    if a != [] {
      assert a[0] in b;
      assert b[0] in a;
      if a[0] != b[0] {
        BelowTotal(a[0], b[0]);
        assert false;
      }
      forall s ensures s in a[1..] <==> s in b[1..] {
        StrictTail(a, s);
        StrictTail(b, s);
      }
      StrictlySortedUnique(a[1..], b[1..]);
      assert a == [a[0]] + a[1..] && b == [b[0]] + b[1..];
    }
  }

  lemma StrictTail(a: seq<string>, s: string)
    requires StrictlySorted(a) && a != []
    ensures s in a[1..] <==> s in a && s != a[0]
  {
    if s in a[1..] {
      BelowTotal(a[0], s);
    }
  }

  function InsertName(name: string, names: seq<string>): seq<string> {
    if names == [] || AtMost(name, names[0]) then [name] + names
    else [names[0]] + InsertName(name, names[1..])
  }

  /** `Vec<String>::sort`. */
  function SortNames(names: seq<string>): seq<string> {
    if names == [] then [] else InsertName(names[0], SortNames(names[1..]))
  }

  lemma {:induction false} InsertNameElements(name: string, names: seq<string>, s: string)
    ensures s in InsertName(name, names) <==> s == name || s in names
  {
    if names == [] || AtMost(name, names[0]) {
    } else {
      InsertNameElements(name, names[1..], s);
      assert names == [names[0]] + names[1..];
    }
  }

  lemma {:induction false} InsertNameSorted(name: string, names: seq<string>)
    requires StrictlySorted(names) && name !in names
    ensures StrictlySorted(InsertName(name, names))
  {
    if names == [] {
    } else if AtMost(name, names[0]) {
      forall i | 0 <= i < |names| ensures Below(name, names[i]) {
        if i > 0 { BelowTransitive(name, names[0], names[i]); }
      }
    } else {
      InsertNameSorted(name, names[1..]);
      BelowTotal(name, names[0]);
      var rest := InsertName(name, names[1..]);
      forall i | 0 <= i < |rest| ensures Below(names[0], rest[i]) {
        InsertNameElements(name, names[1..], rest[i]);
        assert rest[i] in rest;
      }
    }
  }

  /** Sorting keeps the elements and, without repeats, sorts them strictly. */
  lemma {:induction false} SortNamesFacts(names: seq<string>)
    ensures forall s :: s in SortNames(names) <==> s in names
    ensures NoRepeats(names) ==> StrictlySorted(SortNames(names))
  {
    if names != [] {
      SortNamesFacts(names[1..]);
      var rest := SortNames(names[1..]);
      forall s ensures s in SortNames(names) <==> s in names {
        InsertNameElements(names[0], rest, s);
        assert names == [names[0]] + names[1..];
      }
      if NoRepeats(names) {
        assert names[0] !in names[1..];
        InsertNameSorted(names[0], rest);
      }
    }
  }
}
