/**
 * What the rule engine makes of one rule: its filter, its actions, the scans for INTO and FROM in its SQL, and
 * the parser behind them. A scan that cuts the text inside a character panics.
 */
module RuleSql {
  import opened Prelude
  import opened Text
  import opened Config

  datatype SqlAnswer = Parses | NotParsed | ParserPanics

  /** Which characters are alphanumeric, and what the SQL parser answers. */
  datatype Language = Language(alphanumeric: char -> bool, parse: string -> SqlAnswer)

  // ---------------------------------------------------------------------
  // Filters and topics.
  // ---------------------------------------------------------------------

  /** A filter whose only `#` is last and follows a character outside ASCII: checking it panics. */
  predicate Unwinds(filter: string) {
    && |filter| >= 2 && filter[|filter| - 1] == '#' && '#' !in filter[..|filter| - 1]
    && filter[|filter| - 2] as int >= 0x80
  }

  /** `#` only as the whole last level. */
  predicate FilterOk(filter: string) {
    && filter != ""
    && (forall i :: 0 <= i < |filter| && filter[i] == '#' ==>
         i == |filter| - 1 && (i > 0 ==> filter[i - 1] == '/'))
  }

  /** A filter is taken when it is text without `#`, then at most a `#` that stands alone or behind a slash. */
  lemma FilterOkExactly(filter: string)
    ensures FilterOk(filter) <==>
            || (filter != "" && '#' !in filter)
            || (exists head: string :: filter == head + ['#'] && '#' !in head
                  && (head == "" || head[|head| - 1] == '/'))
  {
    var n := |filter|;
    if FilterOk(filter) && '#' in filter {
      var head := filter[..n - 1];
      assert filter[n - 1] == '#' && filter == head + ['#'];
      assert '#' !in head;
    }
    if head: string :| filter == head + ['#'] && '#' !in head && (head == "" || head[|head| - 1] == '/') {
      assert forall i :: 0 <= i < n - 1 ==> filter[i] == head[i];
    }
  }

  /** A filter panics when it ends in its only `#`, right after a character outside ASCII. */
  lemma UnwindsExactly(filter: string)
    ensures Unwinds(filter) <==>
            exists head: string, c: char :: filter == head + [c, '#'] && c >= '\U{80}' && '#' !in head
  {
    var n := |filter|;
    if Unwinds(filter) {
      assert filter == filter[..n - 2] + [filter[n - 2], '#'];
      assert filter[..n - 1] == filter[..n - 2] + [filter[n - 2]];
    }
    if head: string, c: char :| filter == head + [c, '#'] && c >= '\U{80}' && '#' !in head {
      assert filter[..n - 1] == head + [c];
    }
  }

  predicate ActionTaken(a: RuleAction) {
    match a
    case Republish(topic, qos) => topic != "" && '+' !in topic && '#' !in topic && qos <= 2
    case Log => true
    case ForwardConnector(id) => !Blank(id)
  }

  // ---------------------------------------------------------------------
  // The two scans.
  // ---------------------------------------------------------------------

  datatype Keyword = Into | From

  function Spelled(kw: Keyword): string {
    if kw == Into then "into" else "from"
  }

  predicate IsQuote(c: char) {
    c == '"' || c == '\'' || c == '`'
  }

  /** Where a scan stands: open parentheses, and the quote it is inside of. */
  datatype Scan = Scan(depth: nat, quote: Option<char>)

  function Past(s: Scan, c: char): Scan {
    if s.quote.Some? then if c == s.quote.value then s.(quote := None) else s
    else if IsQuote(c) then s.(quote := Some(c))
    else if c == '(' then s.(depth := s.depth + 1)
    else if c == ')' && s.depth > 0 then s.(depth := s.depth - 1)
    else s
  }

  function ScanAt(sql: string, i: nat): Scan
    requires i <= |sql|
  {
    if i == 0 then Scan(0, None) else Past(ScanAt(sql, i - 1), sql[i - 1])
  }

  function Over(s: Scan, text: string): Scan {
    if text == "" then s else Past(Over(s, text[..|text| - 1]), text[|text| - 1])
  }

  lemma {:induction false} ScanIsOver(sql: string, i: nat)
    requires i <= |sql|
    ensures ScanAt(sql, i) == Over(Scan(0, None), sql[..i])
  {
    if i > 0 {
      ScanIsOver(sql, i - 1);
      assert sql[..i][..i - 1] == sql[..i - 1];
    }
  }

  lemma {:induction false} OverJoined(s: Scan, a: string, b: string)
    ensures Over(s, a + b) == Over(Over(s, a), b)
  {
    if b == "" {
      assert a + b == a;
    } else {
      OverJoined(s, a, b[..|b| - 1]);
      assert (a + b)[..|a + b| - 1] == a + b[..|b| - 1];
    }
  }

  predicate Plain(c: char) {
    !IsQuote(c) && c != '(' && c != ')'
  }

  /** Plain text leaves the scan where it stands, and so does everything inside a quote but that quote. */
  lemma {:induction false} OverPlain(s: Scan, text: string)
    requires if s.quote.Some? then s.quote.value !in text else forall i :: 0 <= i < |text| ==> Plain(text[i])
    ensures Over(s, text) == s
  {
    if text != "" { OverPlain(s, text[..|text| - 1]); }
  }

  /** A quoted text leaves the scan where it stands. */
  lemma OverQuoted(s: Scan, quote: char, text: string)
    requires s.quote.None? && IsQuote(quote) && quote !in text
    ensures Over(s, [quote] + text + [quote]) == s
  {
    OverJoined(s, [quote] + text, [quote]);
    OverJoined(s, [quote], text);
    assert [quote][..0] == "";
    assert Over(s, [quote]) == s.(quote := Some(quote));
    OverPlain(s.(quote := Some(quote)), text);
  }

  /** A text in parentheses does if it does inside them; a closing one without its opening is passed over. */
  lemma OverParentheses(s: Scan, text: string)
    requires s.quote.None? && Over(s.(depth := s.depth + 1), text) == s.(depth := s.depth + 1)
    ensures Over(s, "(" + text + ")") == s && Over(s, "(") == s.(depth := s.depth + 1)
    ensures s.depth == 0 ==> Over(s, ")") == s
  {
    OverJoined(s, "(" + text, ")");
    OverJoined(s, "(", text);
    assert "("[..0] == "" && ")"[..0] == "";
  }

  /** A position where the scan looks for its keyword; INTO counts outside quotes and parentheses only. */
  predicate Spot(sql: string, i: nat, kw: Keyword)
    requires i < |sql|
  {
    match kw
    case Into => (sql[i] == 'i' || sql[i] == 'I') && ScanAt(sql, i) == Scan(0, None)
    case From => sql[i] == 'f' || sql[i] == 'F'
  }

  /** Four octets from here there is text left, and that place is inside a character. */
  predicate CutsInside(sql: string, i: nat)
    requires i < |sql|
  {
    ByteLen(sql[i..]) >= 4 && forall j :: i < j <= |sql| && j <= i + 4 ==> ByteLen(sql[i..j]) != 4
  }

  predicate WordChar(c: char, l: Language) {
    l.alphanumeric(c) || c == '_'
  }

  /** The keyword stands here as a word of its own. */
  predicate Word(sql: string, i: nat, kw: Keyword, l: Language) {
    && i + 4 <= |sql| && AsciiLower(sql[i..i + 4]) == Spelled(kw)
    && (i == 0 || !WordChar(sql[i - 1], l)) && (i + 4 == |sql| || !WordChar(sql[i + 4], l))
  }

  datatype Search = Found(at: nat) | Absent | Cut

  function Find(sql: string, kw: Keyword, i: nat, l: Language): (r: Search)
    requires i <= |sql|
    ensures r.Found? ==> i <= r.at && Word(sql, r.at, kw, l)
    decreases |sql| - i
  {
    if i == |sql| then Absent
    else if Spot(sql, i, kw) && CutsInside(sql, i) then Cut
    else if Spot(sql, i, kw) && Word(sql, i, kw, l) then Found(i)
    else Find(sql, kw, i + 1, l)
  }

  /** A spot where the scan cuts inside a character, with no keyword at a spot before it. */
  ghost predicate CutBefore(sql: string, kw: Keyword, from: nat, l: Language) {
    exists i :: from <= i < |sql| && Spot(sql, i, kw) && CutsInside(sql, i)
      && forall j :: from <= j < i ==> !(Spot(sql, j, kw) && Word(sql, j, kw, l))
  }

  /** The scan panics exactly at such a spot. */
  lemma {:induction false} CutExactly(sql: string, kw: Keyword, from: nat, l: Language)
    requires from <= |sql|
    ensures Find(sql, kw, from, l) == Cut <==> CutBefore(sql, kw, from, l)
    decreases |sql| - from
  {
    hide CutsInside, Word, Spot;
    if from < |sql| {
      CutExactly(sql, kw, from + 1, l);
      if Spot(sql, from, kw) && CutsInside(sql, from) {
        assert CutBefore(sql, kw, from, l);
      } else if !(Spot(sql, from, kw) && Word(sql, from, kw, l)) && CutBefore(sql, kw, from + 1, l) {
        var i :| from + 1 <= i < |sql| && Spot(sql, i, kw) && CutsInside(sql, i)
                 && forall j :: from + 1 <= j < i ==> !(Spot(sql, j, kw) && Word(sql, j, kw, l));
        assert forall j :: from <= j < i ==> !(Spot(sql, j, kw) && Word(sql, j, kw, l));
      }
    }
  }

  /** The scanning loop, with its depth and its quote. */
  method ScanFor(sql: string, kw: Keyword, l: Language) returns (r: Search)
    ensures r == Find(sql, kw, 0, l)
  {
    var at := Scan(0, None);
    for i := 0 to |sql|
      invariant at == ScanAt(sql, i) && Find(sql, kw, 0, l) == Find(sql, kw, i, l)
    {
      var c := sql[i];
      var here := if kw == Into then (c == 'i' || c == 'I') && at == Scan(0, None) else c == 'f' || c == 'F';
      if here && CutsInside(sql, i) {
        return Cut;
      }
      if here && Word(sql, i, kw, l) {
        return Found(i);
      }
      at := Past(at, c);
    }
    return Absent;
  }

  // ---------------------------------------------------------------------
  // Spots, words and cuts, told from the text.
  // ---------------------------------------------------------------------

  /** A spot for INTO is an `i`, in either case, outside quotes and parentheses; one for FROM any `f`. */
  lemma SpotExactly(sql: string, i: nat, kw: Keyword)
    requires i < |sql|
    ensures Spot(sql, i, kw) <==>
            if kw == Into then sql[i] in "iI" && Over(Scan(0, None), sql[..i]) == Scan(0, None) else sql[i] in "fF"
  {
    ScanIsOver(sql, i);
  }

  lemma QuotesAre(c: char)
    ensures IsQuote(c) <==> c in "\"'`"
  {
  }

  /** The keyword stands at a place when the text goes on with it, in any case, and no word goes on around it. */
  lemma WordExactly(sql: string, i: nat, kw: Keyword, l: Language)
    requires i <= |sql|
    ensures Word(sql, i, kw, l) <==>
            && (i == 0 || !(l.alphanumeric(sql[i - 1]) || sql[i - 1] == '_'))
            && exists word: string, rest: string ::
                 && sql[i..] == word + rest && AsciiLower(word) == (if kw == Into then "into" else "from")
                 && (rest == "" || !(l.alphanumeric(rest[0]) || rest[0] == '_'))
  {
    if Word(sql, i, kw, l) {
      assert sql[i..] == sql[i..i + 4] + sql[i + 4..];
    }
    if word: string, rest: string :|
      sql[i..] == word + rest && AsciiLower(word) == (if kw == Into then "into" else "from")
    {
      assert |AsciiLower(word)| == |word| == 4;
      assert sql[i..i + 4] == word;
      assert rest != "" ==> sql[i + 4] == rest[0];
    }
  }

  /** The four octets end inside a character: one that begins before their end and ends after it. */
  lemma CutsInsideExactly(sql: string, i: nat)
    requires i < |sql|
    ensures CutsInside(sql, i) <==>
            exists j :: i <= j < |sql| && ByteLen(sql[i..j]) < 4 < ByteLen(sql[i..j + 1])
  {
    if CutsInside(sql, i) {
      assert sql[i..|sql|] == sql[i..];
      LongPrefix(sql[i..]);
      var j := CrossedAt(sql, i, |sql|);
    }
    if j :| i <= j < |sql| && ByteLen(sql[i..j]) < 4 < ByteLen(sql[i..j + 1]) {
      assert sql[i..|sql|] == sql[i..];
      BytesGrow(sql, i, j + 1, |sql|);
      forall m | i < m <= |sql| ensures ByteLen(sql[i..m]) != 4 {
        if m <= j { BytesGrow(sql, i, m, j); } else { BytesGrow(sql, i, j + 1, m); }
      }
    }
  }

  lemma {:induction false} BytesGrow(sql: string, i: nat, j: nat, m: nat)
    requires i <= j <= m <= |sql|
    ensures ByteLen(sql[i..j]) <= ByteLen(sql[i..m]) && (j < m ==> ByteLen(sql[i..j]) < ByteLen(sql[i..m]))
  {
    if j < m {
      BytesGrow(sql, i, j, m - 1);
      ByteLenSnoc(sql[i..m]);
      assert sql[i..m][..m - i - 1] == sql[i..m - 1];
    }
  }

  lemma {:induction false} ByteLenSnoc(s: string)
    requires s != ""
    ensures ByteLen(s) == ByteLen(s[..|s| - 1]) + CharBytes(s[|s| - 1])
  {
    if |s| > 1 {
      ByteLenSnoc(s[1..]);
      assert s[1..][..|s| - 2] == s[..|s| - 1][1..];
    }
  }

  /** A text has at least as many octets as characters. */
  lemma {:induction false} LongPrefix(s: string)
    ensures ByteLen(s) >= |s|
  {
    if s != "" { LongPrefix(s[1..]); }
  }

  lemma {:induction false} CrossedAt(sql: string, i: nat, m: nat) returns (j: nat)
    requires i < m <= |sql| && ByteLen(sql[i..m]) >= 4
    requires forall j :: i < j <= |sql| && j <= i + 4 ==> ByteLen(sql[i..j]) != 4
    ensures i <= j < m && ByteLen(sql[i..j]) < 4 < ByteLen(sql[i..j + 1])
  {
    if ByteLen(sql[i..m - 1]) < 4 {
      j := m - 1;
      LongPrefix(sql[i..m - 1]);
      assert m - 1 - i <= 3;
    } else {
      assert m - 1 > i;
      j := CrossedAt(sql, i, m - 1);
    }
  }

  /** Which actions are taken. */
  lemma ActionTakenExactly(a: RuleAction)
    ensures ActionTaken(a) <==>
            match a
            case Republish(topic, qos) =>
              |topic| > 0 && (forall i :: 0 <= i < |topic| ==> topic[i] !in "+#") && qos in {0, 1, 2}
            case Log => true
            case ForwardConnector(id) => Trim(id) != ""
  {
  }

  // ---------------------------------------------------------------------
  // The clause after INTO and the target after FROM.
  // ---------------------------------------------------------------------

  /** Length of the longest prefix of word characters. */
  function WordLength(s: string, l: Language): (n: nat)
    ensures n <= |s|
  {
    if s == "" || !WordChar(s[0], l) then 0 else 1 + WordLength(s[1..], l)
  }

  function TrimSemicolons(s: string): string {
    if s != "" && s[|s| - 1] == ';' then TrimSemicolons(s[..|s| - 1]) else s
  }

  /** The text behind `connector (`. */
  function AfterOpen(s: string, l: Language): Option<string> {
    var a := TrimStart(s);
    var n := WordLength(a, l);
    var b := TrimStart(a[n..]);
    if AsciiLower(a[..n]) != "connector" || b == "" || b[0] != '(' then None else Some(b[1..])
  }

  /** A quoted id and the text behind it. */
  function QuotedId(s: string): Option<(string, string)> {
    var c := TrimStart(s);
    if c == "" || (c[0] != '"' && c[0] != '\'') then None
    else
      var k := IndexOf(c[1..], c[0]);
      if k == |c| - 1 then None else Some((c[1..][..k], c[k + 2..]))
  }

  predicate Closes(s: string) {
    var d := TrimStart(s);
    d != "" && d[0] == ')' && TrimEnd(TrimSemicolons(Trim(d[1..]))) == ""
  }

  /** The connector id of `connector("<id>")`, if that is all there is. */
  function IntoTarget(s: string, l: Language): Option<string> {
    match AfterOpen(s, l)
    case None => None
    case Some(rest) =>
      (match QuotedId(rest)
       case None => None
       case Some((id, tail)) => if id == "" || !Closes(tail) then None else Some(id))
  }

  predicate Semicolons(s: string) {
    forall i :: 0 <= i < |s| ==> s[i] == ';'
  }

  /** Letters are alphanumeric; an opening parenthesis and white space are not. */
  ghost predicate Sane(l: Language) {
    && (forall c: char :: 'a' <= c <= 'z' || 'A' <= c <= 'Z' ==> l.alphanumeric(c))
    && !l.alphanumeric('(') && (forall c: char :: IsSpace(c) ==> !l.alphanumeric(c))
  }

  /** Nothing but white space and semicolons, in that order, and white space again. */
  ghost predicate OnlyEnds(tail: string) {
    exists a: string, b: string, c: string :: tail == a + b + c && Spaces(a) && Semicolons(b) && Spaces(c)
  }

  /** `connector`, in any case, and a parenthesis, with white space around the word. */
  ghost predicate Called(s: string, rest: string) {
    exists lead: string, word: string, gap: string ::
      s == lead + word + gap + ['('] + rest && Spaces(lead) && Spaces(gap) && AsciiLower(word) == "connector"
  }

  ghost predicate Quoted(s: string, id: string, rest: string) {
    exists pad: string, quote: char ::
      && s == pad + [quote] + id + [quote] + rest && Spaces(pad)
      && (quote == '"' || quote == '\'') && quote !in id
  }

  ghost predicate Closed(s: string) {
    exists gap: string, tail: string :: s == gap + [')'] + tail && Spaces(gap) && OnlyEnds(tail)
  }

  lemma TrimSpaces(a: string, t: string)
    requires Spaces(a) && t != "" && !IsSpace(t[0])
    ensures TrimStart(a + t) == t
  {
    TrimStartExactly(a + t, t);
  }

  lemma {:induction false} WordLengthIs(word: string, rest: string, l: Language)
    requires forall i :: 0 <= i < |word| ==> WordChar(word[i], l)
    requires rest != "" && !WordChar(rest[0], l)
    ensures WordLength(word + rest, l) == |word|
  {
    if word != "" {
      assert (word + rest)[1..] == word[1..] + rest;
      WordLengthIs(word[1..], rest, l);
    } else {
      assert word + rest == rest;
    }
  }

  lemma ConnectorWord(word: string, l: Language)
    requires Sane(l) && AsciiLower(word) == "connector"
    ensures |word| == 9 && forall i :: 0 <= i < |word| ==> WordChar(word[i], l) && !IsSpace(word[i])
  {
    assert |AsciiLower(word)| == |word|;
    forall i | 0 <= i < |word| ensures WordChar(word[i], l) && !IsSpace(word[i]) {
      assert 'a' <= AsciiLower(word)[i] <= 'z';
    }
  }

  lemma IndexOfFirst(a: string, c: char, b: string)
    requires c !in a
    ensures IndexOf(a + [c] + b, c) == |a|
  {
    var s := a + [c] + b;
    var k := IndexOf(s, c);
    assert s[|a|] == c;
    assert s[..|a|] == a;
  }

  lemma {:induction false} TrimmedSemicolons(s: string)
    ensures exists b: string :: Semicolons(b) && s == TrimSemicolons(s) + b
    ensures TrimSemicolons(s) != "" ==> TrimSemicolons(s)[|TrimSemicolons(s)| - 1] != ';'
  {
    if s != "" && s[|s| - 1] == ';' {
      var init := s[..|s| - 1];
      TrimmedSemicolons(init);
      var b: string :| Semicolons(b) && init == TrimSemicolons(init) + b;
      assert s == TrimSemicolons(s) + (b + [';']) && Semicolons(b + [';']);
    } else {
      assert s == s + "" && Semicolons("");
    }
  }

  lemma {:induction false} AllSemicolons(s: string)
    requires Semicolons(s)
    ensures TrimSemicolons(s) == ""
  {
    if s != "" { AllSemicolons(s[..|s| - 1]); }
  }

  lemma OnlyEndsExactly(tail: string)
    ensures TrimEnd(TrimSemicolons(Trim(tail))) == "" <==> OnlyEnds(tail)
  {
    var t := Trim(tail);
    TrimExactly(tail, t);
    var a: string, c: string :| Spaces(a) && Spaces(c) && tail == a + t + c;
    TrimmedSemicolons(t);
    var m := TrimSemicolons(t);
    var b: string :| Semicolons(b) && t == m + b;
    if TrimEnd(m) == "" {
      TrimEndExactly(m, "");
      assert m == "" by {
        var x: string :| Spaces(x) && m == "" + x;
        assert m == x;
      }
      assert tail == a + b + c;
    }
    if OnlyEnds(tail) {
      var x: string, y: string, z: string :| tail == x + y + z && Spaces(x) && Semicolons(y) && Spaces(z);
      assert forall i :: 0 <= i < |y| ==> !IsSpace(y[i]);
      TrimExactly(tail, y);
      AllSemicolons(y);
    }
  }

  lemma Leading(s: string) returns (a: string)
    ensures Spaces(a) && s == a + TrimStart(s)
  {
    TrimStartExactly(s, TrimStart(s));
    a :| Spaces(a) && s == a + TrimStart(s);
  }

  lemma CalledExactly(s: string, rest: string, l: Language)
    requires Sane(l)
    ensures AfterOpen(s, l) == Some(rest) <==> Called(s, rest)
  {
    hide TrimStart, AsciiLower;
    if AfterOpen(s, l) == Some(rest) {
      var a := TrimStart(s);
      var n := WordLength(a, l);
      var lead := Leading(s);
      var gap := Leading(a[n..]);
      assert a == a[..n] + (gap + (['('] + rest));
      assert s == lead + a[..n] + gap + ['('] + rest;
    }
    if lead: string, word: string, gap: string :|
      s == lead + word + gap + ['('] + rest && Spaces(lead) && Spaces(gap) && AsciiLower(word) == "connector"
    {
      ConnectorWord(word, l);
      var b := ['('] + rest;
      var a := word + (gap + b);
      assert s == lead + a;
      TrimSpaces(lead, a);
      WordLengthIs(word, gap + b, l);
      assert a[..9] == word && a[9..] == gap + b;
      TrimSpaces(gap, b);
    }
  }

  lemma QuotedParts(quote: char, id: string, rest: string)
    ensures var c := [quote] + (id + [quote] + rest);
            c[1..] == id + [quote] + rest && c[1..][..|id|] == id && c[|id| + 2..] == rest
  {
    var c := [quote] + (id + [quote] + rest);
    assert c[1..] == id + ([quote] + rest);
    assert c == ([quote] + id + [quote]) + rest;
  }

  lemma QuotedFound(pad: string, quote: char, id: string, rest: string)
    requires Spaces(pad) && (quote == '"' || quote == '\'') && quote !in id
    ensures QuotedId(pad + [quote] + id + [quote] + rest) == Some((id, rest))
  {
    hide TrimStart, Spaces;
    var c := [quote] + (id + [quote] + rest);
    assert pad + [quote] + id + [quote] + rest == pad + c;
    TrimSpaces(pad, c);
    QuotedParts(quote, id, rest);
    IndexOfFirst(id, quote, rest);
  }

  lemma QuotedExactly(s: string, id: string, rest: string)
    ensures QuotedId(s) == Some((id, rest)) <==> Quoted(s, id, rest)
  {
    hide TrimStart, Spaces;
    if QuotedId(s) == Some((id, rest)) {
      var pad := Leading(s);
      var c := TrimStart(s);
      assert c == [c[0]] + id + [c[0]] + rest;
      assert s == pad + [c[0]] + id + [c[0]] + rest;
    }
    if Quoted(s, id, rest) {
      var pad: string, quote: char :|
        && s == pad + [quote] + id + [quote] + rest && Spaces(pad)
        && (quote == '"' || quote == '\'') && quote !in id;
      QuotedFound(pad, quote, id, rest);
    }
  }

  lemma ClosedExactly(s: string)
    ensures Closes(s) <==> Closed(s)
  {
    hide TrimStart, TrimEnd, TrimSemicolons, OnlyEnds;
    if Closes(s) {
      var gap := Leading(s);
      var d := TrimStart(s);
      OnlyEndsExactly(d[1..]);
      assert s == gap + [')'] + d[1..];
    }
    if gap: string, tail: string :| s == gap + [')'] + tail && Spaces(gap) && OnlyEnds(tail) {
      assert s == gap + ([')'] + tail);
      TrimSpaces(gap, [')'] + tail);
      OnlyEndsExactly(tail);
    }
  }

  /** The connector is found exactly in `connector("<id>")`, with white space and semicolons where they may stand. */
  lemma IntoTargetExactly(s: string, id: string, l: Language)
    requires Sane(l)
    ensures IntoTarget(s, l) == Some(id) <==>
            && id != ""
            && exists inner: string, tail: string :: Called(s, inner) && Quoted(inner, id, tail) && Closed(tail)
  {
    hide AfterOpen, QuotedId, Closes, Called, Quoted, Closed;
    if IntoTarget(s, l) == Some(id) {
      var inner := AfterOpen(s, l).value;
      var tail := QuotedId(inner).value.1;
      CalledExactly(s, inner, l);
      QuotedExactly(inner, id, tail);
      ClosedExactly(tail);
    }
    if inner: string, tail: string :| id != "" && Called(s, inner) && Quoted(inner, id, tail) && Closed(tail) {
      CalledExactly(s, inner, l);
      QuotedExactly(inner, id, tail);
      ClosedExactly(tail);
    }
  }

  datatype Split = Stripped(text: string, connector: Option<string>) | BadInto | SplitPanics

  function SplitInto(sql: string, l: Language): Split {
    match Find(sql, Into, 0, l)
    case Cut => SplitPanics
    case Absent => Stripped(sql, None)
    case Found(i) =>
      (match IntoTarget(sql[i + 4..], l)
       case None => BadInto
       case Some(id) => Stripped(TrimEnd(sql[..i]), Some(id)))
  }

  /** Length of the bare target at the start of a text. */
  function BareLength(s: string): (n: nat)
    ensures n <= |s|
  {
    if s == "" || IsSpace(s[0]) || s[0] in ";,()" then 0 else 1 + BareLength(s[1..])
  }

  lemma {:induction false} TrimStartShorter(s: string)
    ensures |TrimStart(s)| <= |s|
  {
    if s != "" { TrimStartShorter(s[1..]); }
  }

  /** The statement with its FROM target replaced; nothing when the scan panics. */
  function NormalizeFrom(sql: string, l: Language): Option<string> {
    match Find(sql, From, 0, l)
    case Cut => None
    case Absent => Some(sql)
    case Found(i) =>
      var rest := TrimStart(sql[i + 4..]);
      TrimStartShorter(sql[i + 4..]);
      var head := sql[..|sql| - |rest|];
      if rest == "" then Some(sql)
      else if IsQuote(rest[0]) then
        var k := IndexOf(rest[1..], rest[0]);
        if k == |rest| - 1 then Some(sql) else Some(head + "stream" + rest[k + 2..])
      else Some(head + "stream" + rest[BareLength(rest)..])
  }

  predicate TargetChar(c: char) {
    !IsSpace(c) && c !in ";,()"
  }

  lemma {:induction false} BareLengthIs(target: string, tail: string)
    requires (forall i :: 0 <= i < |target| ==> TargetChar(target[i])) && (tail == "" || !TargetChar(tail[0]))
    ensures BareLength(target + tail) == |target|
  {
    if target != "" {
      assert (target + tail)[1..] == target[1..] + tail;
      BareLengthIs(target[1..], tail);
    } else {
      assert target + tail == tail;
    }
  }

  /** A FROM with a quoted target: the target becomes one word, and what stands around it stays. */
  lemma QuotedReplaced(sql: string, i: nat, gap: string, quote: char, name: string, tail: string, l: Language)
    requires Find(sql, From, 0, l) == Found(i) && sql[i + 4..] == gap + [quote] + name + [quote] + tail
    requires Spaces(gap) && IsQuote(quote) && quote !in name
    ensures NormalizeFrom(sql, l) == Some(sql[..i + 4] + gap + "stream" + tail)
  {
    hide Find, TrimStart;
    var rest := [quote] + (name + [quote] + tail);
    assert sql[i + 4..] == gap + rest;
    TrimSpaces(gap, rest);
    assert sql[..|sql| - |rest|] == sql[..i + 4] + gap;
    assert rest[1..] == name + [quote] + tail;
    IndexOfFirst(name, quote, tail);
    assert rest[|name| + 2..] == tail;
  }

  /** The same for a bare target, which ends at white space, a separator or the end. */
  lemma BareReplaced(sql: string, i: nat, gap: string, target: string, tail: string, l: Language)
    requires Find(sql, From, 0, l) == Found(i) && sql[i + 4..] == gap + target + tail && Spaces(gap)
    requires (forall k :: 0 <= k < |target| ==> TargetChar(target[k])) && (tail == "" || !TargetChar(tail[0]))
    requires target + tail != "" && !IsSpace((target + tail)[0]) && !IsQuote((target + tail)[0])
    ensures NormalizeFrom(sql, l) == Some(sql[..i + 4] + gap + "stream" + tail)
  {
    hide Find, TrimStart;
    var rest := target + tail;
    assert sql[i + 4..] == gap + rest;
    TrimSpaces(gap, rest);
    assert sql[..|sql| - |rest|] == sql[..i + 4] + gap;
    BareLengthIs(target, tail);
    assert rest[|target|..] == tail;
  }

  /** Without FROM, or with nothing behind it, the statement stays as it is. */
  lemma NoTarget(sql: string, l: Language)
    requires Find(sql, From, 0, l) != Cut
    requires Find(sql, From, 0, l).Found? ==> Spaces(sql[Find(sql, From, 0, l).at + 4..])
    ensures NormalizeFrom(sql, l) == Some(sql)
  {
    hide Find, TrimStart;
    if Find(sql, From, 0, l).Found? {
      var after := sql[Find(sql, From, 0, l).at + 4..];
      assert after == after + "";
      TrimStartExactly(after, "");
    }
  }

  /** So does one whose target begins with a quote that does not end. */
  lemma OpenQuote(sql: string, i: nat, gap: string, quote: char, name: string, l: Language)
    requires Find(sql, From, 0, l) == Found(i) && sql[i + 4..] == gap + [quote] + name
    requires Spaces(gap) && IsQuote(quote) && quote !in name
    ensures NormalizeFrom(sql, l) == Some(sql)
  {
    hide Find, TrimStart;
    var rest := [quote] + name;
    assert sql[i + 4..] == gap + rest;
    TrimSpaces(gap, rest);
    assert rest[1..] == name;
    assert IndexOf(name, quote) == |name|;
  }

  // ---------------------------------------------------------------------
  // One rule.
  // ---------------------------------------------------------------------

  datatype Compiled = Runs(rule: RuleEntry) | Refused | Panics

  function WithForward(r: RuleEntry, connector: Option<string>): RuleEntry {
    if connector.None? || ForwardConnector(connector.value) in r.actions then r
    else r.(actions := r.actions + [ForwardConnector(connector.value)])
  }

  predicate ActionsTaken(r: RuleEntry) {
    forall i :: 0 <= i < |r.actions| ==> ActionTaken(r.actions[i])
  }

  /** Filter, actions, INTO, FROM and parser, in that order. */
  function Compile(r: RuleEntry, l: Language): Compiled {
    if Unwinds(r.topicFilter) then Panics
    else if !FilterOk(r.topicFilter) || !ActionsTaken(r) then Refused
    else match r.sql
      case None => Runs(r)
      case Some(sql) =>
        (match SplitInto(sql, l)
         case SplitPanics => Panics
         case BadInto => Refused
         case Stripped(text, connector) =>
           (match NormalizeFrom(text, l)
            case None => Panics
            case Some(statement) =>
              (match l.parse(statement)
               case Parses => Runs(WithForward(r, connector))
               case NotParsed => Refused
               case ParserPanics => Panics)))
  }

  /** SQL on which the engine panics: a cut at INTO, or else a cut at FROM or a panic of the parser. */
  ghost predicate SqlPanics(sql: string, l: Language) {
    || CutBefore(sql, Into, 0, l)
    || (SplitInto(sql, l).Stripped? &&
        var text := SplitInto(sql, l).text;
        || CutBefore(text, From, 0, l)
        || (NormalizeFrom(text, l).Some? && l.parse(NormalizeFrom(text, l).value) == ParserPanics))
  }

  /** Which rules make the engine panic, told without running it. */
  lemma PanicsExactly(r: RuleEntry, l: Language)
    ensures Compile(r, l).Panics? <==>
            || Unwinds(r.topicFilter)
            || (FilterOk(r.topicFilter) && ActionsTaken(r) && r.sql.Some? && SqlPanics(r.sql.value, l))
  {
    hide Find, CutBefore, Unwinds, FilterOk, ActionTaken, IntoTarget, CutsInside;
    if r.sql.Some? {
      var sql := r.sql.value;
      CutExactly(sql, Into, 0, l);
      if SplitInto(sql, l).Stripped? {
        CutExactly(SplitInto(sql, l).text, From, 0, l);
      }
      UnwindingNotOk(r.topicFilter);
    }
  }

  /** What the parser is asked about. */
  ghost predicate Asks(sql: string, l: Language, statement: string) {
    SplitInto(sql, l).Stripped? && NormalizeFrom(SplitInto(sql, l).text, l) == Some(statement)
  }

  /**
   * A rule runs exactly when its filter and its actions are taken and it has no SQL or SQL whose statement parses;
   * the rule that runs is the one given, and forwards to the connector of its INTO, once.
   */
  lemma RunsExactly(r: RuleEntry, l: Language)
    ensures Compile(r, l).Runs? <==>
            && FilterOk(r.topicFilter) && (forall i :: 0 <= i < |r.actions| ==> ActionTaken(r.actions[i]))
            && (r.sql.Some? ==> exists statement: string :: Asks(r.sql.value, l, statement)
                                  && l.parse(statement) == Parses)
    ensures Compile(r, l).Runs? ==>
            var rule := Compile(r, l).rule;
            var into := if r.sql.Some? then SplitInto(r.sql.value, l).connector else None;
            && rule.(actions := r.actions) == r && r.actions <= rule.actions
            && |rule.actions| ==
               |r.actions| + (if into.Some? && ForwardConnector(into.value) !in r.actions then 1 else 0)
            && (forall a :: a in rule.actions <==>
                 a in r.actions || (into.Some? && a == ForwardConnector(into.value)))
  {
    hide Unwinds, FilterOk, ActionTaken, SplitInto, NormalizeFrom;
    UnwindingNotOk(r.topicFilter);
  }

  /** The text before INTO, without white space at its end, and the connector it names. */
  lemma SplitExactly(sql: string, l: Language)
    ensures match SplitInto(sql, l)
            case SplitPanics => CutBefore(sql, Into, 0, l)
            case BadInto => Find(sql, Into, 0, l).Found? && IntoTarget(sql[Find(sql, Into, 0, l).at + 4..], l).None?
            case Stripped(text, None) => Find(sql, Into, 0, l).Absent? && text == sql
            case Stripped(text, Some(id)) =>
              && Find(sql, Into, 0, l).Found?
              && var i := Find(sql, Into, 0, l).at;
                 text == TrimEnd(sql[..i]) && IntoTarget(sql[i + 4..], l) == Some(id)
  {
    hide IntoTarget, Find, CutBefore;
    CutExactly(sql, Into, 0, l);
  }

  /** A scan finds the first spot where its keyword stands as a word, unless it is cut before. */
  lemma {:induction false} FoundExactly(sql: string, kw: Keyword, from: nat, l: Language, i: nat)
    requires from <= |sql|
    ensures Find(sql, kw, from, l) == Found(i) <==>
            && from <= i < |sql| && Spot(sql, i, kw) && !CutsInside(sql, i) && Word(sql, i, kw, l)
            && forall j :: from <= j < i ==> !Spot(sql, j, kw) || !(CutsInside(sql, j) || Word(sql, j, kw, l))
    decreases |sql| - from
  {
    hide CutsInside, Word, Spot;
    if from < |sql| { FoundExactly(sql, kw, from + 1, l, i); }
  }

  lemma UnwindingNotOk(filter: string)
    ensures Unwinds(filter) ==> !FilterOk(filter)
  {
  }
}
