/**
 * What the command reader accepts (internal/protocol/parser.go), as a grammar:
 * texts are put together from lines, numbers and words, and the reader yields a
 * value exactly for the texts of that value.
 */
module RespGrammar {
  import opened Options
  import opened Resp

  // ---- Lines ----

  function Returns(n: nat): Bytes
  {
    seq(n, _ => 13)
  }

  /** A line, any number of carriage returns, and a line feed or the end of the
      stream; together at most 64 KiB, not counting the line ending. */
  ghost predicate LineForm(s: Bytes, line: Bytes, rest: Bytes)
  {
    && 10 !in line && (line != [] ==> line[|line| - 1] != 13)
    && exists n :: LineEnds(s, line, n, rest)
  }

  ghost predicate LineEnds(s: Bytes, line: Bytes, n: nat, rest: Bytes)
  {
    || (s == line + Returns(n) + [10] + rest && |line| + n <= 65536 + if n > 0 then 1 else 0)
    || (s == line + Returns(n) && s != [] && rest == [] && |line| + n <= 65536)
  }

  lemma {:induction false} TrimIs(s: Bytes) returns (n: nat)
    requires LF !in s
    ensures s == TrimRight(s) + Returns(n)
    ensures TrimRight(s) != [] ==> TrimRight(s)[|TrimRight(s)| - 1] != CR
  {
    if s != [] && IsNewline(s[|s| - 1]) {
      var m := TrimIs(s[..|s| - 1]);
      assert s[|s| - 1] in s;
      n := m + 1;
      assert s == s[..|s| - 1] + [CR];
      assert Returns(n) == Returns(m) + [CR];
    } else {
      n := 0;
    }
  }

  lemma {:induction false} TrimReturns(line: Bytes, n: nat)
    requires LF !in line && (line != [] ==> line[|line| - 1] != CR)
    ensures TrimRight(line + Returns(n)) == line
  {
    var s := line + Returns(n);
    if n > 0 {
      assert s[..|s| - 1] == line + Returns(n - 1);
      TrimReturns(line, n - 1);
    } else {
      assert s == line;
      if line != [] {
        assert line[|line| - 1] in line;
      }
    }
  }

  lemma NoFeed(line: Bytes, n: nat)
    requires LF !in line
    ensures LF !in line + Returns(n)
  {
  }

  lemma ParsedLine(s: Bytes, line: Bytes, rest: Bytes)
    requires ParseLine(s) == Ok(line, rest)
    ensures LineForm(s, line, rest)
  {
    hide TrimRight;
    var e := LineEnd(s);
    var body := s[..e];
    assert LF !in body;
    var n := TrimIs(body);
    if e < |s| {
      assert s == body + [LF] + s[e + 1..];
      if e > 0 && s[e - 1] == CR {
        OneReturnLess(body);
        assert RawLine(s) == body[..e - 1];
      } else {
        assert RawLine(s) == body;
        LastOf(body, TrimRight(body), n);
      }
      assert LineEnds(s, TrimRight(body), n, rest);
    } else {
      assert s == body;
      assert LineEnds(s, TrimRight(body), n, rest);
    }
  }

  lemma OneReturnLess(body: Bytes)
    requires body != [] && body[|body| - 1] == CR
    ensures TrimRight(body) == TrimRight(body[..|body| - 1])
  {
  }

  lemma LastOf(body: Bytes, line: Bytes, n: nat)
    requires body == line + Returns(n)
    ensures n > 0 ==> body[|body| - 1] == CR
  {
  }

  lemma LineParsed(s: Bytes, line: Bytes, rest: Bytes)
    requires LineForm(s, line, rest)
    ensures ParseLine(s) == Ok(line, rest)
  {
    hide TrimRight;
    var n: nat :| LineEnds(s, line, n, rest);
    var body := line + Returns(n);
    NoFeed(line, n);
    TrimReturns(line, n);
    if s == body + [LF] + rest && |line| + n <= 65536 + (if n > 0 then 1 else 0) {
      assert s[|body|] == LF;
      assert forall i :: 0 <= i < |body| ==> s[i] == body[i];
      LineEndAt(s, |body|);
      assert s[..|body|] == body && s[|body| + 1..] == rest;
      if n > 0 {
        OneReturnLess(body);
        assert RawLine(s) == body[..|body| - 1];
      } else {
        assert body == line;
        assert RawLine(s) == body;
      }
    } else {
      assert forall i :: 0 <= i < |s| ==> s[i] in s;
      assert LineEnd(s) == |s|;
      assert s[..|s|] == s;
    }
  }

  /** The line reader yields exactly the lines of these texts. */
  lemma LineIff(s: Bytes, line: Bytes, rest: Bytes)
    ensures ParseLine(s) == Ok(line, rest) <==> LineForm(s, line, rest)
  {
    if ParseLine(s) == Ok(line, rest) {
      ParsedLine(s, line, rest);
    }
    if LineForm(s, line, rest) {
      LineParsed(s, line, rest);
    }
  }

  // ---- Numbers ----

  function Zeros(n: nat): Bytes
  {
    seq(n, _ => 48)
  }

  function Size(v: int): nat
  {
    if v < 0 then -v else v
  }

  /** An optional sign, any number of zeros and the decimal digits, in 64 bits. */
  ghost predicate Numeral(line: Bytes, v: int)
  {
    && -0x8000_0000_0000_0000 <= v < 0x8000_0000_0000_0000
    && exists n :: NumeralWith(line, v, n)
  }

  ghost predicate NumeralWith(line: Bytes, v: int, n: nat)
  {
    var digits := Zeros(n) + Decimal(Size(v));
    || (line == digits && v >= 0)
    || (line == [43] + digits && v >= 0)
    || (line == [45] + digits && v <= 0)
  }

  lemma OneDigit(d: Bytes)
    requires AllDigits(d) && |d| == 1
    ensures Decimal(Value(d)) == d
  {
  }

  lemma ValueSnoc(d: Bytes)
    requires AllDigits(d) && d != []
    ensures var n := |d| - 1;
            Value(d) == 10 * Value(d[..n]) + (d[n] - ZERO) as nat
  {
  }

  /** Digits after a number that is not zero, or after zeros, are its next ones. */
  lemma DigitMore(d: Bytes, k: nat) returns (n: nat)
    requires AllDigits(d) && |d| > 1
    requires d[..|d| - 1] == Zeros(k) + Decimal(Value(d[..|d| - 1]))
    ensures d == Zeros(n) + Decimal(Value(d))
  {
    hide Decimal, Value, Zeros;
    var m := |d| - 1;
    var v, last := Value(d[..m]), (d[m] - ZERO) as nat;
    assert IsDigit(d[m]);
    ValueSnoc(d);
    assert d == d[..m] + [d[m]];
    if v == 0 {
      n := k + 1;
      OneZeroMore(k);
      SmallDecimal(0);
      SmallDecimal(last);
    } else {
      n := k;
      LastDigit(v, last);
      Associative(Zeros(k), Decimal(v), [d[m]]);
    }
  }

  lemma SmallDecimal(v: nat)
    requires v < 10
    ensures Decimal(v) == [v as Byte + ZERO]
  {
  }

  lemma {:induction false} DigitsAre(d: Bytes) returns (n: nat)
    requires AllDigits(d) && d != []
    ensures d == Zeros(n) + Decimal(Value(d))
  {
    hide Decimal, Value, Zeros;
    if |d| == 1 {
      n := 0;
      NoZeros();
      OneDigit(d);
    } else {
      var k := DigitsAre(d[..|d| - 1]);
      n := DigitMore(d, k);
    }
  }

  lemma NoZeros()
    ensures Zeros(0) == []
  {
  }

  lemma OneZeroMore(k: nat)
    ensures Zeros(k + 1) == Zeros(k) + [ZERO]
  {
  }

  lemma LastDigit(v: nat, last: nat)
    requires v > 0 && last < 10
    ensures Decimal(10 * v + last) == Decimal(v) + [last as Byte + ZERO]
  {
    assert (10 * v + last) / 10 == v && (10 * v + last) % 10 == last;
  }

  lemma {:induction false} ValueOfZeros(n: nat, d: Bytes)
    requires AllDigits(d)
    ensures AllDigits(Zeros(n) + d) && Value(Zeros(n) + d) == Value(d)
  {
    var s := Zeros(n) + d;
    if d == [] {
      if n > 0 {
        ValueOfZeros(n - 1, d);
        assert s[..|s| - 1] == Zeros(n - 1) + d;
      }
    } else {
      var m := |d| - 1;
      ValueOfZeros(n, d[..m]);
      assert s[..|s| - 1] == Zeros(n) + d[..m];
    }
  }

  lemma NumeralRead(line: Bytes, v: int)
    requires Numeral(line, v)
    ensures Atoi(line) == Some(v)
  {
    hide Decimal, Value, Zeros;
    var n: nat :| NumeralWith(line, v, n);
    var digits := Zeros(n) + Decimal(Size(v));
    DecimalValue(Size(v));
    ValueOfZeros(n, Decimal(Size(v)));
    assert digits != [] && IsDigit(digits[0]);
    if line == digits && v >= 0 {
    } else if line == [PLUS] + digits && v >= 0 {
      assert line[1..] == digits;
    } else {
      assert line[1..] == digits;
    }
  }

  lemma ReadNumeral(line: Bytes, v: int)
    requires Atoi(line) == Some(v)
    ensures Numeral(line, v)
  {
    hide Decimal, Value, Zeros;
    var signed := line[0] == PLUS || line[0] == MINUS;
    var digits := if signed then line[1..] else line;
    var n := DigitsAre(digits);
    assert signed ==> line == [line[0]] + digits;
    assert NumeralWith(line, v, n);
  }

  /** A number on a line of its own. */
  ghost predicate NumberForm(s: Bytes, v: int, rest: Bytes)
  {
    exists line :: LineForm(s, line, rest) && Numeral(line, v)
  }

  lemma NumberIff(s: Bytes, v: int, rest: Bytes)
    ensures ParseInt(s) == Ok(v, rest) <==> NumberForm(s, v, rest)
  {
    hide ParseLine, Atoi, LineForm, Numeral;
    if ParseInt(s) == Ok(v, rest) {
      var line := ParseLine(s).value;
      LineIff(s, line, rest);
      ReadNumeral(line, v);
    }
    if NumberForm(s, v, rest) {
      var line :| LineForm(s, line, rest) && Numeral(line, v);
      LineIff(s, line, rest);
      NumeralRead(line, v);
    }
  }

  // ---- Bulk strings ----

  /** A dollar sign, the length on a line, and that many bytes with their ending;
      a negative length stands for no bytes. */
  ghost predicate BulkForm(s: Bytes, value: Bytes, rest: Bytes)
  {
    || (exists v :: v < 0 && value == [] && s != [] && s[0] == 36 && NumberForm(s[1..], v, rest))
    || (|value| <= 8388608 && s != [] && s[0] == 36 && NumberForm(s[1..], |value|, value + [13, 10] + rest))
  }

  lemma BulkIff(s: Bytes, value: Bytes, rest: Bytes)
    ensures ParseBulk(s) == Ok(value, rest) <==> BulkForm(s, value, rest)
  {
    hide ParseInt, NumberForm;
    if ParseBulk(s) == Ok(value, rest) {
      var length := ParseInt(s[1..]);
      NumberIff(s[1..], length.value, length.rest);
      if length.value >= 0 {
        assert |value| == length.value;
        assert length.rest == value + [CR, LF] + rest;
      }
    }
    if BulkForm(s, value, rest) {
      if v :| v < 0 && value == [] && s != [] && s[0] == DOLLAR && NumberForm(s[1..], v, rest) {
        NumberIff(s[1..], v, rest);
      } else {
        var after := value + [CR, LF] + rest;
        NumberIff(s[1..], |value|, after);
        assert after[..|value|] == value && after[|value| + 2..] == rest;
      }
    }
  }

  ghost predicate BulksForm(s: Bytes, values: seq<Bytes>, rest: Bytes)
    decreases |values|
  {
    if values == [] then s == rest
    else
      var init, last := values[..|values| - 1], values[|values| - 1];
      exists mid :: BulksForm(s, init, mid) && BulkForm(mid, last, rest)
  }

  lemma {:induction false} BulksIff(s: Bytes, values: seq<Bytes>, rest: Bytes)
    ensures ParseBulks(s, |values|) == Ok(values, rest) <==> BulksForm(s, values, rest)
    decreases |values|
  {
    hide ParseBulk, BulkForm;
    if values != [] {
      var n := |values| - 1;
      assert values == values[..n] + [values[n]];
      if ParseBulks(s, |values|) == Ok(values, rest) {
        var init := ParseBulks(s, n);
        BulksIff(s, values[..n], init.rest);
        BulkIff(init.rest, values[n], rest);
      }
      if BulksForm(s, values, rest) {
        var mid :| BulksForm(s, values[..n], mid) && BulkForm(mid, values[n], rest);
        BulksIff(s, values[..n], mid);
        BulkIff(mid, values[n], rest);
      }
    }
  }

  // ---- Words ----

  predicate IsGap(gap: Bytes)
  {
    forall i :: 0 <= i < |gap| ==> IsSpace(gap[i])
  }

  predicate IsWord(word: Bytes)
  {
    word != [] && forall i :: 0 <= i < |word| ==> !IsSpace(word[i])
  }

  /** Gaps around and between words; there is white space between two words. */
  ghost predicate Separates(gaps: seq<Bytes>, words: seq<Bytes>)
  {
    && |gaps| == |words| + 1
    && (forall i :: 0 <= i < |gaps| ==> IsGap(gaps[i]))
    && (forall i :: 0 < i < |words| ==> gaps[i] != [])
    && (forall i :: 0 <= i < |words| ==> IsWord(words[i]))
  }

  function Join(gaps: seq<Bytes>, words: seq<Bytes>): Bytes
    requires |gaps| == |words| + 1
  {
    if words == [] then gaps[0] else gaps[0] + (words[0] + Join(gaps[1..], words[1..]))
  }

  /** The words of a line, with nothing but white space around them. */
  ghost predicate WordsForm(s: Bytes, words: seq<Bytes>)
  {
    exists gaps :: Separates(gaps, words) && s == Join(gaps, words)
  }

  lemma SpaceMore(s: Bytes, words: seq<Bytes>, gaps: seq<Bytes>)
    requires s != [] && IsSpace(s[0]) && Separates(gaps, words) && s[1..] == Join(gaps, words)
    ensures WordsForm(s, words)
  {
    var more := [[s[0]] + gaps[0]] + gaps[1..];
    assert more[1..] == gaps[1..];
    assert Separates(more, words);
    assert s == [s[0]] + s[1..];
    assert s == Join(more, words);
  }

  lemma WordFirst(gaps: seq<Bytes>, words: seq<Bytes>)
    requires Separates(gaps, words)
    ensures words != [] && gaps[0] == [] ==> Join(gaps, words) != [] && !IsSpace(Join(gaps, words)[0])
  {
  }

  lemma WordMore(word: Bytes, rest: Bytes, words: seq<Bytes>, gaps: seq<Bytes>)
    requires IsWord(word) && (rest != [] ==> IsSpace(rest[0]))
    requires Separates(gaps, words) && rest == Join(gaps, words)
    ensures WordsForm(word + rest, [word] + words)
  {
    var more, all := [[]] + gaps, [word] + words;
    assert more[1..] == gaps && all[1..] == words;
    WordFirst(gaps, words);
    assert Separates(more, all);
    assert Join(more, all) == [] + (word + rest);
  }

  lemma {:induction false} FieldsForm(s: Bytes)
    ensures WordsForm(s, Fields(s))
    decreases |s|
  {
    hide WordEnd;
    if s == [] {
      assert Separates([[]], []) && Join([[]], []) == [];
    } else if IsSpace(s[0]) {
      FieldsForm(s[1..]);
      var gaps :| Separates(gaps, Fields(s[1..])) && s[1..] == Join(gaps, Fields(s[1..]));
      SpaceMore(s, Fields(s[1..]), gaps);
    } else {
      var n := WordEnd(s);
      FieldsForm(s[n..]);
      var gaps :| Separates(gaps, Fields(s[n..])) && s[n..] == Join(gaps, Fields(s[n..]));
      WordMore(s[..n], s[n..], Fields(s[n..]), gaps);
      assert s == s[..n] + s[n..];
    }
  }

  lemma WordEndAt(word: Bytes, rest: Bytes)
    requires IsWord(word) && (rest != [] ==> IsSpace(rest[0]))
    ensures WordEnd(word + rest) == |word|
  {
    var s := word + rest;
    assert forall i :: 0 <= i < |word| ==> s[i] == word[i];
    assert rest != [] ==> s[|word|] == rest[0];
  }

  lemma RestStarts(gaps: seq<Bytes>, words: seq<Bytes>)
    requires Separates(gaps, words) && (words != [] ==> gaps[0] != [])
    ensures Join(gaps, words) != [] ==> IsSpace(Join(gaps, words)[0])
  {
  }

  lemma {:induction false} FormFields(s: Bytes, gaps: seq<Bytes>, words: seq<Bytes>)
    requires Separates(gaps, words) && s == Join(gaps, words)
    ensures Fields(s) == words
    decreases |s|
  {
    hide WordEnd;
    if gaps[0] != [] {
      var less := [gaps[0][1..]] + gaps[1..];
      assert less[1..] == gaps[1..];
      assert s[1..] == Join(less, words);
      FormFields(s[1..], less, words);
    } else if words != [] {
      var rest := Join(gaps[1..], words[1..]);
      assert s == words[0] + rest;
      RestStarts(gaps[1..], words[1..]);
      WordEndAt(words[0], rest);
      assert s[0] == words[0][0];
      assert s[..|words[0]|] == words[0] && s[|words[0]|..] == rest;
      FormFields(rest, gaps[1..], words[1..]);
      assert words == [words[0]] + words[1..];
    }
  }

  /** A line is split into exactly its words: none is lost, and they keep their order. */
  lemma FieldsIff(s: Bytes, words: seq<Bytes>)
    ensures Fields(s) == words <==> WordsForm(s, words)
  {
    hide Fields;
    FieldsForm(s);
    if WordsForm(s, words) {
      var gaps :| Separates(gaps, words) && s == Join(gaps, words);
      FormFields(s, gaps, words);
    }
  }

  // ---- Commands ----

  /** A star, the number of arguments on a line and that many bulk strings; or a
      line of words that does not begin with a star. */
  ghost predicate CommandForm(s: Bytes, args: seq<Bytes>, rest: Bytes)
  {
    s != [] && if s[0] == 42 then ArrayForm(s[1..], args, rest) else InlineForm(s, args, rest)
  }

  ghost predicate ArrayForm(s: Bytes, args: seq<Bytes>, rest: Bytes)
  {
    0 < |args| <= 4194304 && exists body :: NumberForm(s, |args|, body) && BulksForm(body, args, rest)
  }

  ghost predicate InlineForm(s: Bytes, args: seq<Bytes>, rest: Bytes)
  {
    args != [] && exists line :: LineForm(s, line, rest) && WordsForm(line, args)
  }

  lemma {:induction false} BulksCount(s: Bytes, count: nat)
    ensures ParseBulks(s, count).Ok? ==> |ParseBulks(s, count).value| == count
  {
    hide ParseBulk;
    if count > 0 {
      BulksCount(s, count - 1);
    }
  }

  lemma ArrayIff(s: Bytes, args: seq<Bytes>, rest: Bytes)
    ensures ParseArray(s) == Ok(args, rest) <==> ArrayForm(s, args, rest)
  {
    hide ParseInt, ParseBulks, NumberForm, BulksForm;
    if ParseArray(s) == Ok(args, rest) {
      var count := ParseInt(s);
      BulksCount(count.rest, count.value);
      NumberIff(s, count.value, count.rest);
      BulksIff(count.rest, args, rest);
    }
    if ArrayForm(s, args, rest) {
      var body :| NumberForm(s, |args|, body) && BulksForm(body, args, rest);
      NumberIff(s, |args|, body);
      BulksIff(body, args, rest);
    }
  }

  lemma InlineIff(s: Bytes, args: seq<Bytes>, rest: Bytes)
    ensures ParseInline(s) == Ok(args, rest) <==> InlineForm(s, args, rest)
  {
    hide ParseLine, Fields, LineForm, WordsForm;
    if ParseInline(s) == Ok(args, rest) {
      var line := ParseLine(s).value;
      LineIff(s, line, rest);
      FieldsIff(line, args);
    }
    if InlineForm(s, args, rest) {
      var line :| LineForm(s, line, rest) && WordsForm(line, args);
      LineIff(s, line, rest);
      FieldsIff(line, args);
    }
  }

  /** The reader yields a command exactly when the input begins with a text of
      it, and leaves what follows; so no input can be read in two ways. */
  lemma CommandIff(s: Bytes, args: seq<Bytes>, rest: Bytes)
    ensures ParseCommand(s) == Ok(args, rest) <==> CommandForm(s, args, rest)
  {
    hide ParseArray, ParseInline, ArrayForm, InlineForm;
    if s != [] {
      if s[0] == STAR {
        ArrayIff(s[1..], args, rest);
      } else {
        InlineIff(s, args, rest);
      }
    }
  }
}
