/**
 * Parsing of RESP commands in array form (internal/protocol/parser.go) and the
 * encoding that clients send (scripts/realworld_benchmark.js).  The input is
 * what is left of the byte stream.
 */
module Resp {
  import opened Options

  newtype Byte = x: int | 0 <= x < 256

  const CR: Byte := 13
  const LF: Byte := 10
  const STAR: Byte := 42     // '*'
  const DOLLAR: Byte := 36   // '$'
  const PLUS: Byte := 43
  const MINUS: Byte := 45
  const ZERO: Byte := 48
  const NINE: Byte := 57

  const MAX_ITEMS: nat := 4194304
  const MAX_BULK: nat := 8388608
  const MAX_LINE: nat := 65536
  const INT_LIMIT: int := 0x8000_0000_0000_0000

  type Bytes = seq<Byte>

  /** A value read and the input after it, or a protocol or stream error. */
  datatype Parsed<+T> = Ok(value: T, rest: Bytes) | Err

  // ---- Lines ----

  /** Position of the first line feed, or the length if there is none. */
  function LineEnd(s: Bytes): (n: nat)
    ensures n <= |s|
    ensures n < |s| ==> s[n] == LF
    ensures forall i :: 0 <= i < n ==> s[i] != LF
  {
    if s == [] then 0 else if s[0] == LF then 0 else 1 + LineEnd(s[1..])
  }

  predicate IsNewline(b: Byte)
  {
    b == CR || b == LF
  }

  function TrimRight(s: Bytes): Bytes
  {
    if s != [] && IsNewline(s[|s| - 1]) then TrimRight(s[..|s| - 1]) else s
  }

  /** The bytes before the line feed without one carriage return; at the end of
      the stream the last line needs no line feed. */
  function RawLine(s: Bytes): Bytes
  {
    var n := LineEnd(s);
    if n < |s| && n > 0 && s[n - 1] == CR then s[..n - 1] else s[..n]
  }

  function ParseLine(s: Bytes): Parsed<Bytes>
  {
    if s == [] then Err
    else if |RawLine(s)| > MAX_LINE then Err
    else Ok(TrimRight(RawLine(s)), if LineEnd(s) < |s| then s[LineEnd(s) + 1..] else [])
  }

  // ---- Integers ----

  predicate IsDigit(b: Byte)
  {
    ZERO <= b <= NINE
  }

  predicate AllDigits(s: Bytes)
  {
    forall i :: 0 <= i < |s| ==> IsDigit(s[i])
  }

  function Value(s: Bytes): nat
    requires AllDigits(s)
  {
    if s == [] then 0 else 10 * Value(s[..|s| - 1]) + (s[|s| - 1] - ZERO) as nat
  }

  /** An optional sign and at least one digit, within 64 bits. */
  function Atoi(s: Bytes): Option<int>
  {
    var signed := s != [] && (s[0] == PLUS || s[0] == MINUS);
    var digits := if signed then s[1..] else s;
    if digits == [] || !AllDigits(digits) then None
    else
      var n: int := if s[0] == MINUS then 0 - Value(digits) else Value(digits);
      if -INT_LIMIT <= n < INT_LIMIT then Some(n) else None
  }

  function ParseInt(s: Bytes): Parsed<int>
  {
    var line := ParseLine(s);
    if line.Err? then Err
    else
      var n := Atoi(line.value);
      if n.None? then Err else Ok(n.value, line.rest)
  }

  // ---- Bulk strings and arrays ----

  /** A negative length stands for a missing value, read as no bytes. */
  function ParseBulk(s: Bytes): Parsed<Bytes>
  {
    if s == [] || s[0] != DOLLAR then Err
    else
      var length := ParseInt(s[1..]);
      if length.Err? then Err
      else if length.value < 0 then Ok([], length.rest)
      else if length.value > MAX_BULK || |length.rest| < length.value + 2 then Err
      else if length.rest[length.value] != CR || length.rest[length.value + 1] != LF then Err
      else Ok(length.rest[..length.value], length.rest[length.value + 2..])
  }

  function ParseBulks(s: Bytes, count: nat): Parsed<seq<Bytes>>
  {
    if count == 0 then Ok([], s)
    else
      var init := ParseBulks(s, count - 1);
      if init.Err? then Err
      else
        var last := ParseBulk(init.rest);
        if last.Err? then Err else Ok(init.value + [last.value], last.rest)
  }

  function ParseArray(s: Bytes): Parsed<seq<Bytes>>
  {
    var count := ParseInt(s);
    if count.Err? || count.value <= 0 || count.value > MAX_ITEMS then Err
    else ParseBulks(count.rest, count.value)
  }

  // ---- Inline commands ----

  predicate IsSpace(b: Byte)
  {
    9 <= b <= 13 || b == 32
  }

  function WordEnd(s: Bytes): (n: nat)
    ensures n <= |s|
    ensures n < |s| ==> IsSpace(s[n])
    ensures forall i :: 0 <= i < n ==> !IsSpace(s[i])
    ensures s != [] && !IsSpace(s[0]) ==> n > 0
  {
    if s == [] || IsSpace(s[0]) then 0 else 1 + WordEnd(s[1..])
  }

  /** The words of a line. */
  function Fields(s: Bytes): (words: seq<Bytes>)
    ensures forall w :: w in words ==> w != [] && forall b :: b in w ==> !IsSpace(b)
    decreases |s|
  {
    if s == [] then []
    else if IsSpace(s[0]) then Fields(s[1..])
    else [s[..WordEnd(s)]] + Fields(s[WordEnd(s)..])
  }

  function ParseInline(s: Bytes): Parsed<seq<Bytes>>
  {
    var line := ParseLine(s);
    if line.Err? || Fields(line.value) == [] then Err else Ok(Fields(line.value), line.rest)
  }

  /** The name and arguments of the next command. */
  function ParseCommand(s: Bytes): Parsed<seq<Bytes>>
  {
    if s == [] then Err else if s[0] == STAR then ParseArray(s[1..]) else ParseInline(s)
  }

  // ---- The encoder ----

  function Decimal(n: nat): Bytes
  {
    (if n < 10 then [] else Decimal(n / 10)) + [(n % 10) as Byte + ZERO]
  }

  function EncodeBulk(arg: Bytes): Bytes
  {
    [DOLLAR] + Decimal(|arg|) + [CR, LF] + arg + [CR, LF]
  }

  function EncodeBulks(args: seq<Bytes>): Bytes
  {
    if args == [] then [] else EncodeBulks(args[..|args| - 1]) + EncodeBulk(args[|args| - 1])
  }

  function EncodeCommand(args: seq<Bytes>): Bytes
  {
    [STAR] + Decimal(|args|) + [CR, LF] + EncodeBulks(args)
  }

  /** Commands the limits of the parser allow. */
  ghost predicate Sendable(args: seq<Bytes>)
  {
    0 < |args| <= MAX_ITEMS && forall a :: a in args ==> |a| <= MAX_BULK
  }

  // ---- Numbers survive ----

  lemma ValueMore(d: Bytes, b: Byte)
    requires AllDigits(d) && IsDigit(b)
    ensures AllDigits(d + [b]) && Value(d + [b]) == 10 * Value(d) + (b - ZERO) as nat
  {
    assert (d + [b])[..|d|] == d;
  }

  lemma LastDecimal(n: nat)
    ensures var b := (n % 10) as Byte + ZERO;
            IsDigit(b) && (b - ZERO) as nat == n % 10 && Decimal(n) == (if n < 10 then [] else Decimal(n / 10)) + [b]
  {
  }

  lemma {:induction false} DecimalDigits(n: nat)
    ensures Decimal(n) != [] && AllDigits(Decimal(n)) && Value(Decimal(n)) == n
  {
    hide Decimal, Value, AllDigits, IsDigit;
    LastDecimal(n);
    var b := (n % 10) as Byte + ZERO;
    if n < 10 {
      NoDigits();
      ValueMore([], b);
    } else {
      DecimalDigits(n / 10);
      ValueMore(Decimal(n / 10), b);
    }
  }

  lemma NoDigits()
    ensures AllDigits([]) && Value([]) == 0
  {
  }

  lemma DecimalValue(n: nat)
    ensures Decimal(n) != [] && AllDigits(Decimal(n)) && Value(Decimal(n)) == n
    ensures n < 100_000_000 ==> |Decimal(n)| <= 8
  {
    hide Power10, Decimal, Value, AllDigits;
    DecimalLength(n, 8);
    DecimalDigits(n);
  }

  function Power10(k: nat): nat
  {
    if k == 0 then 1 else 10 * Power10(k - 1)
  }

  lemma {:induction false} DecimalLength(n: nat, k: nat)
    requires k >= 1
    ensures n < Power10(k) ==> |Decimal(n)| <= k
    ensures k == 8 ==> Power10(k) == 100_000_000
  {
    if n >= 10 && k > 1 {
      DecimalLength(n / 10, k - 1);
    }
    assert Power10(1) == 10;
    if k == 8 {
      assert Power10(2) == 100 && Power10(4) == 10000 && Power10(6) == 1000000;
    }
  }

  lemma AtoiDecimal(n: nat)
    requires n < INT_LIMIT
    ensures Atoi(Decimal(n)) == Some(n)
  {
    DecimalValue(n);
    var d := Decimal(n);
    assert IsDigit(d[0]);
  }

  // ---- Round trip ----

  lemma {:induction false} LineEndAt(s: Bytes, n: nat)
    requires n < |s| && s[n] == LF && forall i :: 0 <= i < n ==> s[i] != LF
    ensures LineEnd(s) == n
  {
    var m := LineEnd(s);
  }

  lemma NoTrim(s: Bytes)
    requires AllDigits(s)
    ensures TrimRight(s) == s
  {
    if s != [] {
      assert IsDigit(s[|s| - 1]);
    }
  }

  lemma ParseLineOfDigits(d: Bytes, tail: Bytes)
    requires AllDigits(d) && |d| <= 8
    ensures ParseLine(d + [CR, LF] + tail) == Ok(d, tail)
  {
    hide LineEnd;
    var s := d + [CR, LF] + tail;
    NoTrim(d);
    assert forall i :: 0 <= i < |d| ==> s[i] == d[i] && IsDigit(s[i]);
    LineEndAt(s, |d| + 1);
    assert s[..|d|] == d;
    assert s[|d| + 2..] == tail;
  }

  /** A number on a line of its own is read back. */
  lemma ParseIntDecimal(n: nat, tail: Bytes)
    requires n < 100_000_000
    ensures ParseInt(Decimal(n) + [CR, LF] + tail) == Ok(n, tail)
  {
    hide Decimal, Value, ParseLine, Atoi;
    DecimalValue(n);
    AtoiDecimal(n);
    ParseLineOfDigits(Decimal(n), tail);
  }

  lemma ParseBulkEncoded(arg: Bytes, tail: Bytes)
    requires |arg| <= MAX_BULK
    ensures ParseBulk(EncodeBulk(arg) + tail) == Ok(arg, tail)
  {
    hide ParseInt, Decimal;
    var after := arg + [CR, LF] + tail;
    var s := EncodeBulk(arg) + tail;
    assert s[1..] == Decimal(|arg|) + [CR, LF] + after;
    ParseIntDecimal(|arg|, after);
    assert after[..|arg|] == arg && after[|arg| + 2..] == tail;
  }

  /** Reading one bulk more. */
  lemma ParseOneMore(s: Bytes, n: nat, args: seq<Bytes>, arg: Bytes, tail: Bytes)
    requires ParseBulks(s, n) == Ok(args, EncodeBulk(arg) + tail) && |arg| <= MAX_BULK
    ensures ParseBulks(s, n + 1) == Ok(args + [arg], tail)
  {
    hide ParseBulk, EncodeBulk;
    ParseBulkEncoded(arg, tail);
  }

  lemma EncodedSplit(args: seq<Bytes>, tail: Bytes)
    requires args != []
    ensures var n := |args| - 1;
            EncodeBulks(args) + tail == EncodeBulks(args[..n]) + (EncodeBulk(args[n]) + tail)
  {
    hide EncodeBulk;
    var n := |args| - 1;
    Associative(EncodeBulks(args[..n]), EncodeBulk(args[n]), tail);
  }

  lemma Associative(a: Bytes, b: Bytes, c: Bytes)
    ensures (a + b) + c == a + (b + c)
  {
  }

  lemma ParseNoBulks(tail: Bytes)
    ensures ParseBulks(EncodeBulks([]) + tail, 0) == Ok([], tail)
  {
    assert EncodeBulks([]) + tail == tail;
  }

  lemma {:induction false} ParseBulksEncoded(args: seq<Bytes>, tail: Bytes)
    requires forall a :: a in args ==> |a| <= MAX_BULK
    ensures ParseBulks(EncodeBulks(args) + tail, |args|) == Ok(args, tail)
  {
    hide ParseBulks, EncodeBulks, EncodeBulk;
    if args == [] {
      ParseNoBulks(tail);
    } else {
      var n := |args| - 1;
      ParseBulksEncoded(args[..n], EncodeBulk(args[n]) + tail);
      EncodedSplit(args, tail);
      ParseOneMore(EncodeBulks(args) + tail, n, args[..n], args[n], tail);
      assert args[..n] + [args[n]] == args;
    }
  }

  /** Reading an encoded command gives back its arguments and leaves exactly
      the bytes after it. */
  lemma RoundTrip(args: seq<Bytes>, tail: Bytes)
    requires Sendable(args)
    ensures ParseCommand(EncodeCommand(args) + tail) == Ok(args, tail)
  {
    hide ParseInt, ParseBulks, EncodeBulks, Decimal;
    var after := EncodeBulks(args) + tail;
    var s := EncodeCommand(args) + tail;
    assert s[1..] == Decimal(|args|) + [CR, LF] + after;
    ParseIntDecimal(|args|, after);
    ParseBulksEncoded(args, tail);
  }

  function EncodePipeline(commands: seq<seq<Bytes>>): Bytes
  {
    if commands == [] then [] else EncodeCommand(commands[0]) + EncodePipeline(commands[1..])
  }

  /** Reads commands one after the other until none is left to read. */
  function ParsePipeline(s: Bytes, count: nat): Parsed<seq<seq<Bytes>>>
    decreases count
  {
    if count == 0 then Ok([], s)
    else
      var first := ParseCommand(s);
      if first.Err? then Err
      else
        var others := ParsePipeline(first.rest, count - 1);
        if others.Err? then Err else Ok([first.value] + others.value, others.rest)
  }

  /** A pipeline is read back command by command, in order. */
  lemma {:induction false} PipelineRoundTrip(commands: seq<seq<Bytes>>, tail: Bytes)
    requires forall c :: c in commands ==> Sendable(c)
    ensures ParsePipeline(EncodePipeline(commands) + tail, |commands|) == Ok(commands, tail)
  {
    hide ParseCommand, EncodeCommand;
    if commands == [] {
      assert EncodePipeline(commands) + tail == tail;
    } else {
      var after := EncodePipeline(commands[1..]) + tail;
      assert EncodePipeline(commands) + tail == EncodeCommand(commands[0]) + after;
      RoundTrip(commands[0], after);
      PipelineRoundTrip(commands[1..], tail);
      assert [commands[0]] + commands[1..] == commands;
    }
  }

  // ---- Framing ----

  /** Input that stops in or before the line of a number leaves nothing behind
      that number. */
  lemma CutNumber(n: nat, after: Bytes, p: Bytes)
    requires p <= Decimal(n) + [CR, LF] + after
    requires |p| < |Decimal(n)| + 2
    ensures ParseInt(p).Ok? ==> ParseInt(p).rest == [] && ParseInt(p).value >= 0
  {
    hide Decimal, Value;
    DecimalValue(n);
    var s := Decimal(n) + [CR, LF] + after;
    forall i | 0 <= i < |p|
      ensures p[i] != LF
    {
      assert p[i] == s[i];
      if i < |Decimal(n)| {
        assert IsDigit(Decimal(n)[i]);
      }
    }
    assert LineEnd(p) == |p|;
    TrimIsPrefix(RawLine(p));
    if p != [] {
      assert p[0] == Decimal(n)[0] && IsDigit(p[0]);
    }
  }

  lemma {:induction false} TrimIsPrefix(s: Bytes)
    ensures TrimRight(s) <= s
  {
    if s != [] && IsNewline(s[|s| - 1]) {
      TrimIsPrefix(s[..|s| - 1]);
    }
  }

  lemma PrefixSplit(a: Bytes, b: Bytes, p: Bytes)
    requires p <= a + b && |p| >= |a|
    ensures p[..|a|] == a && p[|a|..] <= b && p == a + p[|a|..]
  {
  }

  /** A bulk string that is cut short is not read. */
  lemma CutBulk(arg: Bytes, p: Bytes)
    requires |arg| <= MAX_BULK
    requires p < EncodeBulk(arg)
    ensures ParseBulk(p).Err?
  {
    hide ParseInt, Decimal;
    if p != [] {
      var number := Decimal(|arg|) + [CR, LF];
      var after := arg + [CR, LF];
      assert EncodeBulk(arg) == [DOLLAR] + (number + after);
      PrefixSplit([DOLLAR], number + after, p);
      var q := p[1..];
      if |q| < |number| {
        assert number + after == Decimal(|arg|) + [CR, LF] + after;
        CutNumber(|arg|, after, q);
      } else {
        PrefixSplit(number, after, q);
        ParseIntDecimal(|arg|, q[|number|..]);
      }
    }
  }

  lemma {:induction false} CutBulks(args: seq<Bytes>, p: Bytes)
    requires forall a :: a in args ==> |a| <= MAX_BULK
    requires p < EncodeBulks(args)
    ensures ParseBulks(p, |args|).Err?
  {
    hide ParseBulk, EncodeBulk;
    var n := |args| - 1;
    var init, last := EncodeBulks(args[..n]), EncodeBulk(args[n]);
    if |p| < |init| {
      PrefixOfPrefix(p, init, last);
      CutBulks(args[..n], p);
    } else {
      PrefixSplit(init, last, p);
      ParseBulksEncoded(args[..n], p[|init|..]);
      CutBulk(args[n], p[|init|..]);
    }
  }

  lemma PrefixOfPrefix(p: Bytes, a: Bytes, b: Bytes)
    requires p <= a + b && |p| < |a|
    ensures p < a
  {
  }

  /** No bulk string is read from an empty input. */
  lemma {:induction false} NothingToRead(count: nat)
    requires count > 0
    ensures ParseBulks([], count).Err?
  {
    if count > 1 {
      NothingToRead(count - 1);
    }
  }

  /** No strict prefix of an encoded command is read as a command. */
  lemma NoPrefixIsACommand(args: seq<Bytes>, p: Bytes)
    requires Sendable(args) && p < EncodeCommand(args)
    ensures ParseCommand(p).Err?
  {
    hide ParseInt, ParseBulks, EncodeBulks, Decimal;
    if p != [] {
      var number, after := Decimal(|args|) + [CR, LF], EncodeBulks(args);
      assert EncodeCommand(args) == [STAR] + (number + after);
      PrefixSplit([STAR], number + after, p);
      var q := p[1..];
      if |q| < |number| {
        assert number + after == Decimal(|args|) + [CR, LF] + after;
        CutNumber(|args|, after, q);
        var count := ParseInt(q);
        if count.Ok? && count.value > 0 {
          NothingToRead(count.value);
        }
      } else {
        PrefixSplit(number, after, q);
        ParseIntDecimal(|args|, q[|number|..]);
        CutBulks(args, q[|number|..]);
      }
    }
  }

  // ---- The reader ----

  class RespParser {
    var input: Bytes

    constructor (input: Bytes)
      ensures this.input == input
    {
      this.input := input;
    }

    method ReadLine() returns (r: Option<Bytes>)
      modifies this
      ensures ParseLine(old(input)) == if r.Some? then Ok(r.value, input) else Err
    {
      if input == [] {
        return None;
      }
      var n := 0;
      while n < |input| && input[n] != LF
        invariant 0 <= n <= |input| && input == old(input)
        invariant forall i :: 0 <= i < n ==> input[i] != LF
      {
        n := n + 1;
      }
      assert LineEnd(input) == n;
      var line := input[..n];
      if n < |input| {
        if n > 0 && input[n - 1] == CR {
          line := input[..n - 1];
        }
        input := input[n + 1..];
      } else {
        input := [];
      }
      if |line| > MAX_LINE {
        return None;
      }
      while |line| > 0 && IsNewline(line[|line| - 1])
        invariant TrimRight(line) == TrimRight(RawLine(old(input)))
        decreases |line|
      {
        line := line[..|line| - 1];
      }
      return Some(line);
    }

    method ReadInt() returns (r: Option<int>)
      modifies this
      ensures ParseInt(old(input)) == if r.Some? then Ok(r.value, input) else Err
    {
      var line := ReadLine();
      if line.None? {
        return None;
      }
      return Atoi(line.value);
    }

    method ReadBulkString() returns (r: Option<Bytes>)
      modifies this
      ensures ParseBulk(old(input)) == if r.Some? then Ok(r.value, input) else Err
    {
      hide ParseInt;
      if input == [] {
        return None;
      }
      var b := input[0];
      input := input[1..];
      if b != DOLLAR {
        return None;
      }
      var length := ReadInt();
      if length.None? {
        return None;
      }
      if length.value < 0 {
        return Some([]);
      }
      if length.value > MAX_BULK || |input| < length.value + 2 {
        return None;
      }
      var buf := input[..length.value + 2];
      assert buf[..length.value] == input[..length.value];
      input := input[length.value + 2..];
      if buf[length.value] != CR || buf[length.value + 1] != LF {
        return None;
      }
      return Some(buf[..length.value]);
    }

    method ReadArray() returns (r: Option<seq<Bytes>>)
      modifies this
      ensures ParseArray(old(input)) == if r.Some? then Ok(r.value, input) else Err
    {
      hide ParseInt, ParseBulk;
      var count := ReadInt();
      if count.None? || count.value <= 0 || count.value > MAX_ITEMS {
        return None;
      }
      ghost var body := input;
      var args := [];
      var i := 0;
      while i < count.value
        invariant 0 <= i <= count.value
        invariant ParseBulks(body, i) == Ok(args, input)
      {
        var bulk := ReadBulkString();
        if bulk.None? {
          BulksFail(body, i + 1, count.value);
          return None;
        }
        args := args + [bulk.value];
        i := i + 1;
      }
      return Some(args);
    }

    method ReadInline() returns (r: Option<seq<Bytes>>)
      modifies this
      ensures ParseInline(old(input)) == if r.Some? then Ok(r.value, input) else Err
    {
      var line := ReadLine();
      if line.None? {
        return None;
      }
      var parts := Fields(line.value);
      if |parts| == 0 {
        return None;
      }
      return Some(parts);
    }

    method ReadCommand() returns (r: Option<seq<Bytes>>)
      modifies this
      ensures ParseCommand(old(input)) == if r.Some? then Ok(r.value, input) else Err
    {
      if input == [] {
        return None;
      }
      if input[0] == STAR {
        input := input[1..];
        r := ReadArray();
      } else {
        r := ReadInline();
      }
    }
  }

  lemma {:induction false} BulksFail(s: Bytes, i: nat, count: nat)
    requires i <= count && ParseBulks(s, i).Err?
    ensures ParseBulks(s, count).Err?
  {
    hide ParseBulk;
    if i < count {
      BulksFail(s, i, count - 1);
    }
  }
}
