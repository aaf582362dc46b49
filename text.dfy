/** The pieces of Rust's standard library that the manifest's line format
    relies on: `str::split(' ')`, `str::trim`, `BufRead::read_line`, the
    `Display` of a `u32` and `u32::from_str`. */
module Text {
  import opened Wrappers

  /** Rust's `u8`. */
  type byte = x: int | 0 <= x < 256

  /** Rust's `u32`. */
  type U32 = x: int | 0 <= x < 0x1_0000_0000

  // ---------------------------------------------------------------------------
  // Whitespace and `str::trim`
  // ---------------------------------------------------------------------------

  /** The Unicode `White_Space` property, which `str::trim` strips. */
  predicate IsWhitespace(c: char) {
    || ('\t' <= c <= '\r')
    || c == ' '
    || c == '\U{85}'
    || c == '\U{A0}'
    || c == '\U{1680}'
    || ('\U{2000}' <= c <= '\U{200A}')
    || c == '\U{2028}'
    || c == '\U{2029}'
    || c == '\U{202F}'
    || c == '\U{205F}'
    || c == '\U{3000}'
  }

  /** A string with no whitespace anywhere in it. */
  predicate Plain(s: string) {
    forall i :: 0 <= i < |s| ==> !IsWhitespace(s[i])
  }

  function TrimStart(s: string): (r: string)
    ensures |r| <= |s| && r == s[|s| - |r|..]
    ensures r == [] || !IsWhitespace(r[0])
    ensures forall i :: 0 <= i < |s| - |r| ==> IsWhitespace(s[i])
  {
    if s != [] && IsWhitespace(s[0]) then TrimStart(s[1..]) else s
  }

  function TrimEnd(s: string): (r: string)
    ensures |r| <= |s| && r == s[..|r|]
    ensures r == [] || !IsWhitespace(r[|r| - 1])
    ensures forall i :: |r| <= i < |s| ==> IsWhitespace(s[i])
  {
    if s != [] && IsWhitespace(s[|s| - 1]) then TrimEnd(s[..|s| - 1]) else s
  }

  /** `r` is `s` with exactly `lead` whitespace characters taken off the
      front and only whitespace taken off the back. */
  predicate Strips(s: string, lead: int, r: string) {
    && 0 <= lead <= |s| - |r|
    && s[lead..lead + |r|] == r
    && (forall i :: 0 <= i < lead ==> IsWhitespace(s[i]))
    && (forall i :: lead + |r| <= i < |s| ==> IsWhitespace(s[i]))
  }

  /** `str::trim`: strips leading and trailing whitespace. */
  function Trim(s: string): string {
    TrimEnd(TrimStart(s))
  }

  /** What `trim` leaves is a piece of the string with only whitespace on
      either side of it, and it neither starts nor ends with whitespace. */
  lemma TrimStrips(s: string)
    ensures exists lead :: Strips(s, lead, Trim(s))
    ensures var r := Trim(s); r == [] || (!IsWhitespace(r[0]) && !IsWhitespace(r[|r| - 1]))
  {
    var t := TrimStart(s);
    var r := TrimEnd(t);
    var lead := |s| - |t|;
    forall i | lead + |r| <= i < |s|
      ensures IsWhitespace(s[i])
    {
      assert s[i] == t[i - lead];
    }
    assert Strips(s, lead, r);
    assert r == Trim(s);
  }

  /** `map(|s| s.trim())` over the pieces. */
  function TrimAll(parts: seq<string>): seq<string> {
    seq(|parts|, i requires 0 <= i < |parts| => Trim(parts[i]))
  }

  lemma TrimPlain(s: string)
    requires Plain(s)
    ensures Trim(s) == s
    ensures Trim(s + "\n") == s
  {
    var t := s + "\n";
    assert TrimStart(s) == s;
    if s == [] {
      assert TrimStart(t) == [];
    } else {
      assert TrimStart(t) == t;
      assert t[..|t| - 1] == s;
    }
  }

  // ---------------------------------------------------------------------------
  // `str::split` on a single character, and its inverse
  // ---------------------------------------------------------------------------

  /** `s.split(sep)`: the pieces between separators; always at least one. */
  function Split(s: string, sep: char): (parts: seq<string>)
    ensures |parts| >= 1
    ensures forall i :: 0 <= i < |parts| ==> sep !in parts[i]
    ensures Join(parts, sep) == s
  {
    if s == [] then [[]]
    else
      var rest := Split(s[1..], sep);
      if s[0] == sep then
        var parts := [[]] + rest;
        assert parts[1..] == rest;
        assert [s[0]] + s[1..] == s;
        parts
      else
        var parts := [[s[0]] + rest[0]] + rest[1..];
        if |rest| == 1 then
          assert [s[0]] + s[1..] == s;
          parts
        else
          assert parts[1..] == rest[1..];
          assert Join(rest, sep) == rest[0] + [sep] + Join(rest[1..], sep);
          assert [s[0]] + s[1..] == s;
          parts
  }

  /** The pieces of `fields` with `sep` between each two. */
  function Join(fields: seq<string>, sep: char): string
    requires |fields| >= 1
  {
    if |fields| == 1 then fields[0] else fields[0] + [sep] + Join(fields[1..], sep)
  }

  lemma {:induction false} SplitPlainPiece(a: string, sep: char)
    requires sep !in a
    ensures Split(a, sep) == [a]
  {
    if a != [] {
      SplitPlainPiece(a[1..], sep);
      assert [a[0]] + a[1..] == a;
    }
  }

  lemma {:induction false} SplitAfterPiece(a: string, b: string, sep: char)
    requires sep !in a
    ensures Split(a + [sep] + b, sep) == [a] + Split(b, sep)
  {
    var s := a + [sep] + b;
    if a == [] {
      assert s[1..] == b;
    } else {
      assert s[1..] == a[1..] + [sep] + b;
      SplitAfterPiece(a[1..], b, sep);
      assert [a[0]] + a[1..] == a;
    }
  }

  /** Splitting a joined line gives the pieces back; `tail` stays attached to the last. */
  lemma {:induction false} SplitJoin(fields: seq<string>, tail: string, sep: char)
    requires |fields| >= 1
    requires forall i :: 0 <= i < |fields| ==> sep !in fields[i]
    requires sep !in tail
    ensures Split(Join(fields, sep) + tail, sep) == fields[..|fields| - 1] + [fields[|fields| - 1] + tail]
  {
    if |fields| == 1 {
      SplitPlainPiece(fields[0] + tail, sep);
    } else {
      var rest := fields[1..];
      assert Join(fields, sep) + tail == fields[0] + [sep] + (Join(rest, sep) + tail);
      SplitAfterPiece(fields[0], Join(rest, sep) + tail, sep);
      SplitJoin(rest, tail, sep);
      assert fields[..|fields| - 1] == [fields[0]] + rest[..|rest| - 1];
    }
  }

  /** A line of whitespace-free fields joined by single spaces and ended by a
      line feed splits and trims back into the fields. */
  lemma SplitTrimJoin(fields: seq<string>)
    requires |fields| >= 1
    requires forall i :: 0 <= i < |fields| ==> Plain(fields[i])
    ensures TrimAll(Split(Join(fields, ' ') + "\n", ' ')) == fields
  {
    forall i | 0 <= i < |fields|
      ensures ' ' !in fields[i]
    {
      PlainAvoids(fields[i], ' ');
    }
    assert ' ' !in "\n";
    SplitJoin(fields, "\n", ' ');
    TrimAllPlain(fields);
  }

  lemma TrimAllPlain(fields: seq<string>)
    requires |fields| >= 1
    requires forall i :: 0 <= i < |fields| ==> Plain(fields[i])
    ensures TrimAll(fields[..|fields| - 1] + [fields[|fields| - 1] + "\n"]) == fields
  {
    var n := |fields|;
    var parts := fields[..n - 1] + [fields[n - 1] + "\n"];
    forall i | 0 <= i < n
      ensures Trim(parts[i]) == fields[i]
    {
      TrimPlain(fields[i]);
      if i < n - 1 {
        assert parts[i] == fields[i];
      } else {
        assert parts[i] == fields[i] + "\n";
      }
    }
    var trimmed := TrimAll(parts);
    assert forall i :: 0 <= i < n ==> trimmed[i] == fields[i];
    assert trimmed == fields;
  }

  lemma PlainAvoids(s: string, c: char)
    requires Plain(s) && IsWhitespace(c)
    ensures c !in s
  {
  }

  lemma {:induction false} JoinAvoids(fields: seq<string>, sep: char, c: char)
    requires |fields| >= 1
    requires c != sep
    requires forall i :: 0 <= i < |fields| ==> c !in fields[i]
    ensures c !in Join(fields, sep)
  {
    if |fields| > 1 {
      JoinAvoids(fields[1..], sep, c);
    }
  }

  // ---------------------------------------------------------------------------
  // `BufRead::read_line` and the sequence of lines it produces
  // ---------------------------------------------------------------------------

  /** `read_line`: everything up to and including the first line feed, or all
      that is left; the second component is what remains to be read. */
  function ReadLine(s: string): (r: (string, string))
    ensures r.0 + r.1 == s
    ensures s != [] ==> r.0 != []
    ensures forall i :: 0 <= i < |r.0| - 1 ==> r.0[i] != '\n'
    ensures r.1 != [] ==> r.0[|r.0| - 1] == '\n'
  {
    if s == [] then ([], [])
    else if s[0] == '\n' then ([s[0]], s[1..])
    else
      var (line, rest) := ReadLine(s[1..]);
      ([s[0]] + line, rest)
  }

  /** The pieces of `lines` run together. */
  function Concat(lines: seq<string>): string {
    if lines == [] then [] else lines[0] + Concat(lines[1..])
  }

  /** The lines `read_line` returns, one call after another, until it reads
      nothing. */
  function Lines(s: string): seq<string>
    decreases |s|
  {
    if s == [] then []
    else
      var (line, rest) := ReadLine(s);
      [line] + Lines(rest)
  }

  /** None of the lines is empty, only the last may lack a line feed, and
      together they are the whole text. */
  lemma {:induction false} LinesCover(s: string)
    ensures Concat(Lines(s)) == s
    ensures forall i :: 0 <= i < |Lines(s)| ==> Lines(s)[i] != []
    ensures forall i :: 0 <= i < |Lines(s)| - 1 ==> Lines(s)[i][|Lines(s)[i]| - 1] == '\n'
    decreases |s|
  {
    if s != [] {
      var (line, rest) := ReadLine(s);
      var lines, tail := Lines(s), Lines(rest);
      assert lines == [line] + tail;
      LinesCover(rest);
      assert lines[1..] == tail;
      assert Concat(lines) == line + Concat(tail);
      assert forall i :: 1 <= i < |lines| ==> lines[i] == tail[i - 1];
      if tail != [] {
        assert rest != [];
      }
    }
  }

  lemma {:induction false} ReadLineOf(a: string, b: string)
    requires '\n' !in a
    ensures ReadLine(a + "\n" + b) == (a + "\n", b)
  {
    var s := a + "\n" + b;
    if a != [] {
      assert s[1..] == a[1..] + "\n" + b;
      ReadLineOf(a[1..], b);
      assert [a[0]] + (a[1..] + "\n") == a + "\n";
    } else {
      assert s[1..] == b;
    }
  }

  // ---------------------------------------------------------------------------
  // Decimal text of a `u32`: `Display` and `u32::from_str`
  // ---------------------------------------------------------------------------

  predicate IsDigit(c: char) {
    '0' <= c <= '9'
  }

  function DigitChar(d: nat): (c: char)
    requires d < 10
    ensures IsDigit(c)
  {
    (48 + d) as char
  }

  /** The `Display` text of `n`: decimal digits, no sign, no leading zero. */
  function Decimal(n: nat): (s: string)
    ensures s != []
    ensures forall i :: 0 <= i < |s| ==> IsDigit(s[i])
  {
    if n < 10 then [DigitChar(n)] else Decimal(n / 10) + [DigitChar(n % 10)]
  }

  function DigitsValue(s: string): nat
    requires forall i :: 0 <= i < |s| ==> IsDigit(s[i])
  {
    if s == [] then 0
    else
      assert IsDigit(s[|s| - 1]);
      DigitsValue(s[..|s| - 1]) * 10 + (s[|s| - 1] as int - 48)
  }

  /** `u32::from_str`: an optional `+` and at least one decimal digit, with a
      value below 2^32; anything else is a parse error. */
  function ParseU32(s: string): (r: Option<U32>)
    ensures r.Some? ==> s != [] && (IsDigit(s[0]) || s[0] == '+')
    ensures r.Some? ==> forall i :: 0 < i < |s| ==> IsDigit(s[i])
    ensures r.Some? && IsDigit(s[0]) ==> r.value == DigitsValue(s)
    ensures r.Some? && s[0] == '+' ==> |s| > 1 && r.value == DigitsValue(s[1..])
    ensures s != [] && (forall i :: 0 <= i < |s| ==> IsDigit(s[i])) ==>
              (r.Some? <==> DigitsValue(s) < 0x1_0000_0000)
  {
    var digits := if |s| > 1 && s[0] == '+' then s[1..] else s;
    if digits != [] && forall i :: 0 <= i < |digits| ==> IsDigit(digits[i]) then
      var v := DigitsValue(digits);
      if v < 0x1_0000_0000 then Some(v) else None
    else
      None
  }

  lemma {:induction false} DecimalValue(n: nat)
    ensures DigitsValue(Decimal(n)) == n
  {
    if n >= 10 {
      DecimalValue(n / 10);
      var s := Decimal(n);
      assert s[..|s| - 1] == Decimal(n / 10);
    }
  }

  /** Parsing the printed form of a `u32` gives the number back. */
  lemma ParseDecimal(n: U32)
    ensures ParseU32(Decimal(n)) == Some(n)
  {
    DecimalValue(n);
  }

  lemma DecimalPlain(n: nat)
    ensures Plain(Decimal(n))
  {
  }
}
