/**
 * The PFM decoder, read as a parser over the bytes of a file: three header lines, the magic
 * token, the size line, the signed scale, a chunked read of the body and the reassembly of
 * 4-byte groups into binary32 words.
 */
module PfmReader {
  import opened Results
  import opened Numerics
  import opened PfmImage

  /** One byte of the file, as the unsigned value InputStream.read reports. */
  type Byte = b: int | 0 <= b < 256

  /** The byte of '\n', which ends each header line. */
  const NL: Byte := 10

  function Min(a: int, b: int): int { if a <= b then a else b }

  function Max(a: int, b: int): int { if a >= b then a else b }

  // ---------------------------------------------------------------------------
  // Header lines
  // ---------------------------------------------------------------------------

  /**
   * The input holds at least three newline bytes; without them the header loop, which
   * takes the end of the stream for a character, never ends.
   */
  predicate HasHeader(s: seq<Byte>)
  {
    exists a, b, c :: 0 <= a < b < c < |s| && s[a] == NL && s[b] == NL && s[c] == NL
  }

  /** Some newline byte sits at or after from. */
  predicate NewlineFrom(s: seq<Byte>, from: nat)
  {
    exists j :: from <= j < |s| && s[j] == NL
  }

  /** The first newline at or after from. */
  function NextNewline(s: seq<Byte>, from: nat): (k: nat)
    requires NewlineFrom(s, from)
    ensures from <= k < |s| && s[k] == NL
    ensures forall j :: from <= j < k ==> s[j] != NL
    decreases |s| - from
  {
    if s[from] == NL then from else NextNewline(s, from + 1)
  }

  /** Past the first of at least three newlines two more remain, and past the second, one. */
  lemma NewlinesRemain(s: seq<Byte>)
    requires HasHeader(s)
    ensures NewlineFrom(s, 0)
    ensures NewlineFrom(s, NextNewline(s, 0) + 1)
    ensures NewlineFrom(s, NextNewline(s, NextNewline(s, 0) + 1) + 1)
  {
    var a, b, c :| 0 <= a < b < c < |s| && s[a] == NL && s[b] == NL && s[c] == NL;
    assert NewlineFrom(s, 0) by { assert s[a] == NL; }
    var k0 := NextNewline(s, 0);
    assert NewlineFrom(s, k0 + 1) by {
      if a == k0 { assert s[b] == NL; } else { assert s[a] == NL; }
    }
    var k1 := NextNewline(s, k0 + 1);
    assert k1 <= b && c > k1;
    assert s[c] == NL;
  }

  /** Bytes taken as characters one by one, as the (char) cast of a read byte does. */
  function Latin1(bs: seq<Byte>): (t: string)
    ensures |t| == |bs|
  {
    if |bs| == 0 then [] else Latin1(bs[..|bs| - 1]) + [bs[|bs| - 1] as char]
  }

  /** t holds, character by character, the characters of the bytes bs. */
  predicate Spells(t: string, bs: seq<Byte>)
  {
    |t| == |bs| && forall i :: 0 <= i < |t| ==> t[i] == bs[i] as char
  }

  lemma SpellsStep(t: string, s: seq<Byte>, lo: nat, pos: nat)
    requires lo <= pos < |s| && Spells(t, s[lo..pos])
    ensures Spells(t + [s[pos] as char], s[lo..pos + 1])
  {
  }

  lemma {:induction false} SpellsLatin1(t: string, bs: seq<Byte>)
    requires Spells(t, bs)
    ensures t == Latin1(bs)
    decreases |bs|
  {
    if |bs| > 0 {
      SpellsLatin1(t[..|t| - 1], bs[..|bs| - 1]);
    }
  }

  /** A run of bytes without a newline byte reads as a string without '\n'. */
  lemma {:induction false} Latin1NoNewline(bs: seq<Byte>)
    requires forall j :: 0 <= j < |bs| ==> bs[j] != NL
    ensures '\n' !in Latin1(bs)
    decreases |bs|
  {
    if |bs| > 0 {
      Latin1NoNewline(bs[..|bs| - 1]);
      var b := bs[|bs| - 1];
      assert (b as char) as int == b;
    }
  }

  /** Positions of the first three newline bytes. */
  function LineEnds(s: seq<Byte>): (k: (nat, nat, nat))
    requires HasHeader(s)
    ensures k.0 < k.1 < k.2 < |s| && s[k.0] == NL && s[k.1] == NL && s[k.2] == NL
    ensures forall j :: 0 <= j < k.2 && j != k.0 && j != k.1 ==> s[j] != NL
  {
    NewlinesRemain(s);
    var k0 := NextNewline(s, 0);
    var k1 := NextNewline(s, k0 + 1);
    (k0, k1, NextNewline(s, k1 + 1))
  }

  /** Where header line j (0, 1 or 2) starts and where its closing newline is. */
  function LineStart(s: seq<Byte>, j: nat): (p: nat)
    requires HasHeader(s) && j < 3
  {
    if j == 0 then 0 else if j == 1 then LineEnds(s).0 + 1 else LineEnds(s).1 + 1
  }

  function LineEnd(s: seq<Byte>, j: nat): (p: nat)
    requires HasHeader(s) && j < 3
    ensures LineStart(s, j) <= p < |s| && s[p] == NL
  {
    if j == 0 then LineEnds(s).0 else if j == 1 then LineEnds(s).1 else LineEnds(s).2
  }

  /** The bytes of header line j, before its closing newline. */
  function LineBytes(s: seq<Byte>, j: nat): seq<Byte>
    requires HasHeader(s) && j < 3
  {
    s[LineStart(s, j)..LineEnd(s, j)]
  }

  /** Only line j's closing newline ends it: no byte between its start and that newline is one. */
  lemma LineWithoutNewline(s: seq<Byte>, j: nat)
    requires HasHeader(s) && j < 3
    ensures forall i :: LineStart(s, j) <= i < LineEnd(s, j) ==> s[i] != NL
    ensures forall i :: 0 <= i < |LineBytes(s, j)| ==> LineBytes(s, j)[i] != NL
  {
    var k := LineEnds(s);
    assert LineStart(s, j) <= LineEnd(s, j) <= k.2;
  }

  /** Header line j: the characters of its bytes. */
  function Line(s: seq<Byte>, j: nat): string
    requires HasHeader(s) && j < 3
  {
    Latin1(LineBytes(s, j))
  }

  /** The three header lines and the offset of the first body byte. */
  function HeaderSplit(s: seq<Byte>): (h: (seq<string>, nat))
    requires HasHeader(s)
    ensures |h.0| == 3 && 0 < h.1 <= |s|
  {
    ([Line(s, 0), Line(s, 1), Line(s, 2)], LineEnd(s, 2) + 1)
  }

  /** No header line holds a newline: each ends before the newline that closes it. */
  lemma HeaderLinesWithoutNewline(s: seq<Byte>)
    requires HasHeader(s)
    ensures forall j :: 0 <= j < 3 ==> '\n' !in HeaderSplit(s).0[j]
  {
    LineWithoutNewline(s, 0);
    LineWithoutNewline(s, 1);
    LineWithoutNewline(s, 2);
    Latin1NoNewline(LineBytes(s, 0));
    Latin1NoNewline(LineBytes(s, 1));
    Latin1NoNewline(LineBytes(s, 2));
  }

  /**
   * The bytes before the body are the bytes of the three header lines, each followed by the
   * newline that ends it: the body starts right after the third newline.
   */
  lemma HeaderBytes(s: seq<Byte>)
    requires HasHeader(s)
    ensures s[..HeaderSplit(s).1] ==
      LineBytes(s, 0) + [NL] + LineBytes(s, 1) + [NL] + LineBytes(s, 2) + [NL]
  {
    var k := LineEnds(s);
    LineSlices(s);
    ThreeLines(s, k.0, k.1, k.2);
  }

  /** The bytes of the header lines are the slices between the first three newlines. */
  lemma LineSlices(s: seq<Byte>)
    requires HasHeader(s)
    ensures LineBytes(s, 0) == s[..LineEnds(s).0]
    ensures LineBytes(s, 1) == s[LineEnds(s).0 + 1..LineEnds(s).1]
    ensures LineBytes(s, 2) == s[LineEnds(s).1 + 1..LineEnds(s).2]
  {
    assert s[0..LineEnds(s).0] == s[..LineEnds(s).0];
  }

  lemma ThreeLines(s: seq<Byte>, k0: nat, k1: nat, k2: nat)
    requires k0 < k1 < k2 < |s| && s[k0] == NL && s[k1] == NL && s[k2] == NL
    ensures s[..k2 + 1] == s[..k0] + [NL] + s[k0 + 1..k1] + [NL] + s[k1 + 1..k2] + [NL]
  {
    assert s[..k2 + 1] == s[..k0] + s[k0..k1] + s[k1..k2] + s[k2..k2 + 1];
    assert s[k0..k1] == [NL] + s[k0 + 1..k1];
    assert s[k1..k2] == [NL] + s[k1 + 1..k2];
  }

  /** Three strings that spell the bytes before the first three newlines are the header lines. */
  lemma HeaderLines(s: seq<Byte>, header: seq<string>)
    requires HasHeader(s) && |header| == 3
    requires Spells(header[0], s[..LineEnds(s).0])
    requires Spells(header[1], s[LineEnds(s).0 + 1..LineEnds(s).1])
    requires Spells(header[2], s[LineEnds(s).1 + 1..LineEnds(s).2])
    ensures header == HeaderSplit(s).0
  {
    var k := LineEnds(s);
    SpellsLatin1(header[0], s[..k.0]);
    SpellsLatin1(header[1], s[k.0 + 1..k.1]);
    SpellsLatin1(header[2], s[k.1 + 1..k.2]);
    assert header == [Line(s, 0), Line(s, 1), Line(s, 2)];
  }

  /**
   * The state of the header loop after the bytes before pos: lines header lines are closed
   * and spell their bytes, the current one spells the bytes read since its start, and the
   * lines not reached yet are empty.
   */
  ghost predicate Reading(input: seq<Byte>, header: seq<string>, lines: nat, pos: nat)
    requires HasHeader(input)
  {
    |header| == 3 && lines <= 3 &&
    (lines < 3 ==> LineStart(input, lines) <= pos <= LineEnd(input, lines) &&
                   Spells(header[lines], input[LineStart(input, lines)..pos])) &&
    (lines == 3 ==> pos == LineEnd(input, 2) + 1) &&
    (forall j :: 0 <= j < lines ==> Spells(header[j], LineBytes(input, j))) &&
    (forall j :: lines < j < 3 ==> header[j] == "")
  }

  /** Before the first byte no line is closed and all three are empty. */
  lemma ReadingStart(input: seq<Byte>)
    requires HasHeader(input)
    ensures Reading(input, ["", "", ""], 0, 0)
  {
    assert input[0..0] == [];
  }

  /** A newline byte closes the current line; any other byte extends it. */
  lemma ReadingStep(input: seq<Byte>, header: seq<string>, lines: nat, pos: nat)
    requires HasHeader(input) && Reading(input, header, lines, pos) && lines < 3
    ensures pos < |input|
    ensures input[pos] == NL ==> Reading(input, header, lines + 1, pos + 1)
    ensures input[pos] != NL ==> Reading(input, header[lines := header[lines] + [input[pos] as char]], lines, pos + 1)
  {
    LineWithoutNewline(input, lines);
    if input[pos] == NL {
      assert pos == LineEnd(input, lines);
      if lines < 2 {
        assert LineStart(input, lines + 1) == pos + 1;
        assert input[pos + 1..pos + 1] == [];
      }
    } else {
      SpellsStep(header[lines], input, LineStart(input, lines), pos);
    }
  }

  /** Once three lines are closed, the header and the position are those of HeaderSplit. */
  lemma ReadingDone(input: seq<Byte>, header: seq<string>, pos: nat)
    requires HasHeader(input) && Reading(input, header, 3, pos)
    ensures (header, pos) == HeaderSplit(input)
  {
    assert LineBytes(input, 0) == input[..LineEnds(input).0];
    HeaderLines(input, header);
  }

  /**
   * The header loop: bytes are read one at a time; a newline closes the current line,
   * any other byte is appended to it, until three lines are closed.
   */
  method ReadHeader(input: seq<Byte>) returns (header: seq<string>, pos: nat)
    requires HasHeader(input)
    ensures (header, pos) == HeaderSplit(input)
  {
    header := ["", "", ""];
    pos := 0;
    var lines := 0;
    ReadingStart(input);
    while lines < 3
      invariant lines <= 3 && Reading(input, header, lines, pos)
      decreases 3 - lines, |input| - pos
    {
      ReadingStep(input, header, lines, pos);
      var c := input[pos] as char;
      assert (c == '\n') == (input[pos] == NL) by {
        assert c as int == input[pos];
      }
      pos := pos + 1;
      if c == '\n' {
        lines := lines + 1;
      } else {
        header := header[lines := header[lines] + [c]];
      }
    }
    ReadingDone(input, header, pos);
  }

  // ---------------------------------------------------------------------------
  // Magic token
  // ---------------------------------------------------------------------------

  /** t occurs in s starting at position i. */
  predicate OccursAt(s: string, t: string, i: int)
  {
    0 <= i && i + |t| <= |s| && s[i..i + |t|] == t
  }

  /** Whether t occurs in s as a contiguous block, tried from each start position in turn. */
  function Contains(s: string, t: string): (r: bool)
    ensures r ==> |t| <= |s|
    decreases |s|
  {
    if |s| < |t| then false else s[..|t|] == t || Contains(s[1..], t)
  }

  /** Contains answers exactly whether t occurs somewhere in s. */
  lemma {:induction false} ContainsOccurrence(s: string, t: string)
    ensures Contains(s, t) <==> exists i :: OccursAt(s, t, i)
    decreases |s|
  {
    if |s| < |t| {
      assert forall i :: !OccursAt(s, t, i);
    } else {
      assert s[0..|t|] == s[..|t|];
      if s[..|t|] == t {
        assert OccursAt(s, t, 0);
      }
      if |s| > 0 {
        ContainsOccurrence(s[1..], t);
        if Contains(s[1..], t) {
          var i :| OccursAt(s[1..], t, i);
          TailSlice(s, i, |t|);
          assert OccursAt(s, t, i + 1);
        }
        if i :| OccursAt(s, t, i) && i > 0 {
          TailSlice(s, i - 1, |t|);
          assert OccursAt(s[1..], t, i - 1);
        }
      } else {
        assert OccursAt(s, t, 0);
      }
    }
  }

  /** A block of the tail of s is the block of s one position further on. */
  lemma TailSlice(s: string, i: nat, n: nat)
    requires i + n < |s|
    ensures s[1..][i..i + n] == s[i + 1..i + 1 + n]
  {
  }

  /**
   * Samples per pixel named by the first header line: a line with "Pf" is gray (1),
   * otherwise a line with "PF" is color (3), otherwise the format is unknown.
   */
  function SamplesPerPixel(magic: string): (r: Result<nat>)
    ensures r.Ok? <==> Contains(magic, "Pf") || Contains(magic, "PF")
    ensures r.Ok? ==> (r.value == 1 <==> Contains(magic, "Pf"))
    ensures r.Ok? ==> r.value == 1 || r.value == 3
    ensures r.Err? ==> r.error == BadMagic
  {
    if Contains(magic, "Pf") then Ok(1)
    else if Contains(magic, "PF") then Ok(3)
    else Err(BadMagic)
  }

  // ---------------------------------------------------------------------------
  // Size line
  // ---------------------------------------------------------------------------

  function IndexOfSpace(s: string): (k: nat)
    requires ' ' in s
    ensures k < |s| && s[k] == ' ' && ' ' !in s[..k]
  {
    if s[0] == ' ' then 0
    else
      var k := 1 + IndexOfSpace(s[1..]);
      assert s[..k] == [s[0]] + s[1..][..k - 1];
      k
  }

  /** s cut at every space; empty fields are kept, so there is one more field than spaces. */
  function Fields(s: string): (fs: seq<string>)
    ensures |fs| >= 1 && forall j :: 0 <= j < |fs| ==> ' ' !in fs[j]
    decreases |s|
  {
    if ' ' !in s then [s]
    else
      var k := IndexOfSpace(s);
      [s[..k]] + Fields(s[k + 1..])
  }

  /** The fields glued back together with one space between neighbours. */
  function Join(fs: seq<string>): string
    requires |fs| >= 1
  {
    if |fs| == 1 then fs[0] else fs[0] + " " + Join(fs[1..])
  }

  /** Cutting at the spaces loses nothing: the fields joined by spaces are the line. */
  lemma {:induction false} JoinFields(s: string)
    ensures Join(Fields(s)) == s
    decreases |s|
  {
    if ' ' in s {
      var k := IndexOfSpace(s);
      JoinFields(s[k + 1..]);
      assert Fields(s)[1..] == Fields(s[k + 1..]);
      assert s == s[..k] + " " + s[k + 1..];
    }
  }

  /** Fields without spaces, joined by spaces, are cut back into exactly those fields. */
  lemma {:induction false} FieldsJoin(fs: seq<string>)
    requires |fs| >= 1 && forall j :: 0 <= j < |fs| ==> ' ' !in fs[j]
    ensures Fields(Join(fs)) == fs
    decreases |fs|
  {
    if |fs| > 1 {
      var s := Join(fs);
      var a := fs[0];
      assert s == a + " " + Join(fs[1..]);
      assert s[|a|] == ' ';
      assert s[..|a|] == a;
      var k := IndexOfSpace(s);
      assert s[..k] == a;
      assert s[k + 1..] == Join(fs[1..]);
      FieldsJoin(fs[1..]);
    }
  }

  /** The fields without the empty ones at the end. */
  function DropTrailingEmpty(fs: seq<string>): (r: seq<string>)
    ensures r <= fs
    ensures |r| > 0 ==> r[|r| - 1] != ""
    ensures forall j :: |r| <= j < |fs| ==> fs[j] == ""
  {
    if |fs| == 0 || fs[|fs| - 1] != "" then fs else DropTrailingEmpty(fs[..|fs| - 1])
  }

  /**
   * The tokens String.split(" ") returns: a line without a space is its own only token;
   * otherwise the line is cut at every space and the empty tokens at the end are dropped,
   * so the tokens are the leading fields up to the last non-empty one.
   */
  function SplitOnSpace(s: string): (r: seq<string>)
    ensures ' ' !in s ==> r == [s]
    ensures ' ' in s ==> r <= Fields(s) && (|r| > 0 ==> r[|r| - 1] != "")
    ensures ' ' in s ==> forall j :: |r| <= j < |Fields(s)| ==> Fields(s)[j] == ""
  {
    if ' ' !in s then [s] else DropTrailingEmpty(Fields(s))
  }

  predicate IsDigit(c: char)
  {
    '0' <= c <= '9'
  }

  /** The value of a run of decimal digits, most significant first. */
  function DigitsValue(ds: string): nat
    requires forall i :: 0 <= i < |ds| ==> IsDigit(ds[i])
  {
    if |ds| == 0 then 0
    else
      assert IsDigit(ds[|ds| - 1]);
      10 * DigitsValue(ds[..|ds| - 1]) + (ds[|ds| - 1] as int - '0' as int)
  }

  /** The least and the greatest 32-bit two's-complement int. */
  const IntMin: int := -0x8000_0000
  const IntMax: int := 0x7fff_ffff

  /**
   * Integer.parseInt in radix 10: an optional sign and at least one decimal digit, whose
   * value must fit a 32-bit int; anything else is None (NumberFormatException).
   */
  function ParseInt(s: string): (r: Option<int>)
    ensures r.Some? ==> IntMin <= r.value <= IntMax
    ensures r.Some? ==> |s| > 0
  {
    if |s| == 0 then None
    else
      var digits := if s[0] == '-' || s[0] == '+' then s[1..] else s;
      if |digits| == 0 || exists i :: 0 <= i < |digits| && !IsDigit(digits[i]) then None
      else
        var n: int := DigitsValue(digits);
        var v := if s[0] == '-' then -n else n;
        if IntMin <= v <= IntMax then Some(v) else None
  }

  /** The decimal numeral of n without leading zeros. */
  function Decimal(n: nat): (ds: string)
    ensures |ds| >= 1 && forall i :: 0 <= i < |ds| ==> IsDigit(ds[i])
  {
    if n < 10 then [('0' as int + n) as char]
    else Decimal(n / 10) + [('0' as int + n % 10) as char]
  }

  /** A numeral is read back as the number it writes. */
  lemma {:induction false} DecimalValue(n: nat)
    ensures DigitsValue(Decimal(n)) == n
  {
    if n >= 10 {
      DecimalValue(n / 10);
      var ds := Decimal(n);
      assert ds[..|ds| - 1] == Decimal(n / 10);
    }
  }

  /** Integer.toString of a non-negative int. */
  lemma ParseDecimal(n: nat)
    requires n <= IntMax
    ensures ParseInt(Decimal(n)) == Some(n)
  {
    DecimalValue(n);
    var ds := Decimal(n);
    assert IsDigit(ds[0]);
  }

  /**
   * The size line: the first two tokens are the width and the height. Fewer than two
   * tokens, a token that is not an int, or a negative value is a bad size.
   */
  function ParseSize(line: string): (r: Result<(int, int)>)
    ensures r.Ok? <==>
      var t := SplitOnSpace(line);
      |t| >= 2 && ParseInt(t[0]).Some? && ParseInt(t[1]).Some? &&
      ParseInt(t[0]).value >= 0 && ParseInt(t[1]).value >= 0
    ensures r.Ok? ==>
      var t := SplitOnSpace(line);
      |t| >= 2 && r.value == (ParseInt(t[0]).value, ParseInt(t[1]).value)
    ensures r.Ok? ==> 0 <= r.value.0 <= IntMax && 0 <= r.value.1 <= IntMax
    ensures r.Err? ==> r.error == BadSize
  {
    var t := SplitOnSpace(line);
    if |t| < 2 then Err(BadSize)
    else
      match (ParseInt(t[0]), ParseInt(t[1]))
      case (Some(w), Some(h)) => if w < 0 || h < 0 then Err(BadSize) else Ok((w, h))
      case _ => Err(BadSize)
  }

  /** The size line a PFM writer produces, "<width> <height>", is read back exactly. */
  lemma SizeLineRoundTrip(w: nat, h: nat)
    requires w <= IntMax && h <= IntMax
    ensures ParseSize(Decimal(w) + " " + Decimal(h)) == Ok((w, h))
  {
    var line := Decimal(w) + " " + Decimal(h);
    var dw, dh := Decimal(w), Decimal(h);
    assert forall i :: 0 <= i < |dw| ==> dw[i] != ' ' by {
      forall i | 0 <= i < |dw| ensures dw[i] != ' ' { assert IsDigit(dw[i]); }
    }
    assert forall i :: 0 <= i < |dh| ==> dh[i] != ' ' by {
      forall i | 0 <= i < |dh| ensures dh[i] != ' ' { assert IsDigit(dh[i]); }
    }
    assert Join([dw, dh]) == line;
    FieldsJoin([dw, dh]);
    assert line[|dw|] == ' ';
    assert dh != "" by { assert |dh| >= 1; }
    assert SplitOnSpace(line) == [dw, dh];
    ParseDecimal(w);
    ParseDecimal(h);
  }

  // ---------------------------------------------------------------------------
  // Scale line
  // ---------------------------------------------------------------------------

  /** The third header line as a float; an unparseable line is a bad scale. */
  function ParseScale(line: string, ops: FloatOps): (r: Result<real>)
    ensures r.Err? <==> ops.parseFloat(line).None?
    ensures r.Ok? ==> r.value == ops.parseFloat(line).value
    ensures r.Err? ==> r.error == BadScale
  {
    match ops.parseFloat(line)
    case None => Err(BadScale)
    case Some(scale) => Ok(scale)
  }

  /** The float 1 / |scale| every sample is multiplied by. */
  function InverseScale(scale: real, ops: FloatOps): real
  {
    ops.reciprocal(Abs(scale))
  }

  // ---------------------------------------------------------------------------
  // Body bytes
  // ---------------------------------------------------------------------------

  /**
   * The number of bytes the stream is willing to hand over on read call number call: the
   * given size for each of the first |chunks| calls, and all that was asked on every later one.
   */
  function ChunkAt(chunks: seq<nat>, call: nat, len: nat): nat
  {
    if call < |chunks| then chunks[call] else len
  }

  /**
   * What InputStream.read(buffer, offset, len) returns when avail bytes remain and the
   * stream is willing to hand over chunk bytes on this call: asking for nothing reads
   * nothing, an exhausted stream reports -1, otherwise between 1 and len bytes arrive.
   */
  function StreamRead(avail: nat, len: nat, chunk: nat): (n: int)
    ensures len == 0 ==> n == 0
    ensures len > 0 && avail == 0 ==> n == -1
    ensures len > 0 && avail > 0 ==> 1 <= n <= len && n <= avail
  {
    if len == 0 then 0 else if avail == 0 then -1 else Min(Min(len, avail), Max(1, chunk))
  }

  /**
   * The data buffer after the read loop: the bytes that follow the header, as many as fit,
   * and zero bytes where the input ended first.
   */
  function Body(input: seq<Byte>, start: nat, size: nat): (b: seq<Byte>)
    requires start <= |input|
    ensures |b| == size
    ensures forall k :: 0 <= k < size ==> b[k] == if start + k < |input| then input[start + k] else 0
  {
    var n := Min(size, |input| - start);
    input[start..start + n] + seq(size - n, _ => 0)
  }

  /**
   * The read loop: one call after another fills the buffer from the offset reached so far,
   * until a call returns no bytes, because the buffer is full or the input is exhausted.
   * However the stream splits the input into chunks, the buffer ends the same.
   */
  method ReadBody(input: seq<Byte>, start: nat, size: nat, chunks: seq<nat>)
    returns (bytes: array<Byte>, offset: nat)
    requires start <= |input|
    ensures fresh(bytes) && bytes[..] == Body(input, start, size)
    ensures offset == Min(size, |input| - start)
  {
    bytes := new Byte[size](_ => 0);
    offset := 0;
    var call := 0;
    var read := StreamRead(|input| - start, size, ChunkAt(chunks, call, size));
    while read > 0
      invariant offset <= size && start + offset <= |input|
      invariant read == StreamRead(|input| - (start + offset), size - offset, ChunkAt(chunks, call, size - offset))
      invariant forall k :: 0 <= k < offset ==> bytes[k] == input[start + k]
      invariant forall k :: offset <= k < size ==> bytes[k] == 0
      decreases size - offset
    {
      forall k | 0 <= k < read {
        bytes[offset + k] := input[start + offset + k];
      }
      offset := offset + read;
      call := call + 1;
      read := StreamRead(|input| - (start + offset), size - offset, ChunkAt(chunks, call, size - offset));
    }
    assert bytes[..] == Body(input, start, size);
  }

  // ---------------------------------------------------------------------------
  // Words and samples
  // ---------------------------------------------------------------------------

  /** The 32-bit word of four bytes, the first byte most significant. */
  function BigEndianWord(g: seq<Byte>): (w: nat)
    requires |g| == 4
    ensures w < 0x1_0000_0000
  {
    ((g[0] as int * 256 + g[1]) * 256 + g[2]) * 256 + g[3]
  }

  /** The 32-bit word of four bytes, the first byte least significant. */
  function LittleEndianWord(g: seq<Byte>): (w: nat)
    requires |g| == 4
    ensures w < 0x1_0000_0000
  {
    ((g[3] as int * 256 + g[2]) * 256 + g[1]) * 256 + g[0]
  }

  /** The four bytes of a word, most significant first. */
  function WordBytes(w: nat): (g: seq<Byte>)
    requires w < 0x1_0000_0000
    ensures |g| == 4
  {
    [w / 256 / 256 / 256, w / 256 / 256 % 256, w / 256 % 256, w % 256]
  }

  /** A number written as q * 256 + r with a byte r has quotient q and remainder r. */
  lemma ByteDigit(q: nat, r: Byte)
    ensures (q * 256 + r) / 256 == q && (q * 256 + r) % 256 == r
  {
  }

  function Reverse(g: seq<Byte>): (r: seq<Byte>)
  {
    seq(|g|, i requires 0 <= i < |g| => g[|g| - 1 - i])
  }

  /** Little-endian reading of a group is big-endian reading of the reversed group. */
  lemma LittleIsReversedBig(g: seq<Byte>)
    requires |g| == 4
    ensures LittleEndianWord(g) == BigEndianWord(Reverse(g))
  {
    assert Reverse(g) == [g[3], g[2], g[1], g[0]];
  }

  /** Big-endian assembly loses nothing: splitting the word gives the group back. */
  lemma WordBytesOfWord(g: seq<Byte>)
    requires |g| == 4
    ensures WordBytes(BigEndianWord(g)) == g
  {
    var a: int := g[0];
    var b := a * 256 + g[1];
    var c := b * 256 + g[2];
    ByteDigit(c, g[3]);
    ByteDigit(b, g[2]);
    ByteDigit(a, g[1]);
    assert WordBytes(BigEndianWord(g)) == [g[0], g[1], g[2], g[3]];
  }

  /** Every 32-bit word is the big-endian word of its bytes. */
  lemma WordOfWordBytes(w: nat)
    requires w < 0x1_0000_0000
    ensures BigEndianWord(WordBytes(w)) == w
  {
    var g := WordBytes(w);
    assert w / 256 / 256 / 256 < 256;
    assert w / 256 / 256 == g[0] as int * 256 + g[1];
    assert w / 256 == (g[0] as int * 256 + g[1]) * 256 + g[2];
  }

  /** The word of group i of the buffer, in the selected byte order. */
  function WordAt(bytes: seq<Byte>, i: nat, little: bool): (w: nat)
    requires 4 * i + 4 <= |bytes|
    ensures w < 0x1_0000_0000
    ensures little ==> w == BigEndianWord(Reverse(bytes[4 * i..4 * i + 4]))
  {
    var g := bytes[4 * i..4 * i + 4];
    if little then LittleIsReversedBig(g); LittleEndianWord(g) else BigEndianWord(g)
  }

  /** A sample: the binary32 value of a word, times the inverse scale, as a float. */
  function SampleOf(word: nat, invScale: real, ops: FloatOps): real
  {
    ops.toFloat(ops.fromBits(word) * invScale)
  }

  /** The first count samples of the buffer, one 4-byte group each. */
  function Samples(bytes: seq<Byte>, count: nat, little: bool, invScale: real, ops: FloatOps): (fs: seq<real>)
    requires 4 * count <= |bytes|
    ensures |fs| == count
    ensures forall i :: 0 <= i < count ==> fs[i] == SampleOf(WordAt(bytes, i, little), invScale, ops)
  {
    seq(count, i requires 0 <= i < count => SampleOf(WordAt(bytes, i, little), invScale, ops))
  }

  /**
   * The sample loop: a cursor walks the buffer four bytes at a time, and each group is
   * assembled in the byte order the scale selected.
   */
  method DecodeSamples(bytes: array<Byte>, count: nat, little: bool, invScale: real, ops: FloatOps)
    returns (floats: array<real>)
    requires 4 * count <= bytes.Length
    ensures fresh(floats) && floats[..] == Samples(bytes[..], count, little, invScale, ops)
  {
    floats := new real[count](_ => 0.0);
    var position := 0;
    for i := 0 to count
      invariant position == 4 * i
      invariant forall j :: 0 <= j < i ==> floats[j] == SampleOf(WordAt(bytes[..], j, little), invScale, ops)
    {
      var group := bytes[position..position + 4];
      var word := if little then LittleEndianWord(group) else BigEndianWord(group);
      assert word == WordAt(bytes[..], i, little);
      floats[i] := SampleOf(word, invScale, ops);
      position := position + 4;
    }
  }

  // ---------------------------------------------------------------------------
  // The whole file
  // ---------------------------------------------------------------------------

  /** The buffer of width * height * 4 * samples bytes holds 4 bytes per decoded sample. */
  lemma BufferHoldsSamples(width: int, height: int, spp: int)
    requires width >= 0 && height >= 0 && spp >= 0
    ensures width * height * 4 * spp == 4 * (spp * width * height) >= 0
  {
    var n := width * height;
    assert n >= 0 by {
      if width > 0 && height > 0 {
        ProductPositive(width, height);
      }
    }
    assert n * 4 * spp == 4 * (n * spp);
    assert spp * width * height == spp * n;
  }

  /** What a file decodes to: the size, the kind and the samples of the image. */
  datatype Decoded = Decoded(width: int, height: int, gray: bool, samples: seq<real>)

  /**
   * The decoding of a whole file, step by step as the reader goes: the magic line, the
   * size line, the scale line, the body, and the checks of image construction.
   */
  function Decode(input: seq<Byte>, ops: FloatOps): (r: Result<Decoded>)
    requires HasHeader(input)
    ensures r.Ok? ==> r.value.width > 0 && r.value.height > 0
    ensures r.Ok? ==> (r.value.gray <==> |r.value.samples| == r.value.width * r.value.height)
    ensures r.Ok? ==> (!r.value.gray ==> |r.value.samples| == 3 * (r.value.width * r.value.height))
  {
    var (lines, start) := HeaderSplit(input);
    match SamplesPerPixel(lines[0])
    case Err(e) => Err(e)
    case Ok(spp) =>
      match ParseSize(lines[1])
      case Err(e) => Err(e)
      case Ok(size) =>
        match ParseScale(lines[2], ops)
        case Err(e) => Err(e)
        case Ok(scale) =>
          var (width, height) := size;
          BufferHoldsSamples(width, height, spp);
          var bytes := Body(input, start, width * height * 4 * spp);
          var samples := Samples(bytes, spp * width * height, scale < 0.0, InverseScale(scale, ops), ops);
          match CheckShape(width, height, |samples|)
          case Err(e) => Err(e)
          case Ok(gray) => Ok(Decoded(width, height, gray, samples))
  }

  /**
   * Decoding fails at the first header line that does not parse, in the order magic, size,
   * scale; the reader passes a zero width or height, which construction then rejects.
   */
  lemma DecodeErrors(input: seq<Byte>, ops: FloatOps)
    requires HasHeader(input)
    ensures var lines := HeaderSplit(input).0;
      SamplesPerPixel(lines[0]).Err? ==> Decode(input, ops) == Err(BadMagic)
    ensures var lines := HeaderSplit(input).0;
      SamplesPerPixel(lines[0]).Ok? && ParseSize(lines[1]).Err? ==> Decode(input, ops) == Err(BadSize)
    ensures var lines := HeaderSplit(input).0;
      SamplesPerPixel(lines[0]).Ok? && ParseSize(lines[1]).Ok? && ParseScale(lines[2], ops).Err? ==>
      Decode(input, ops) == Err(BadScale)
    ensures var lines := HeaderSplit(input).0;
      SamplesPerPixel(lines[0]).Ok? && ParseSize(lines[1]).Ok? && ParseScale(lines[2], ops).Ok? ==>
      (ParseSize(lines[1]).value.0 == 0 ==> Decode(input, ops) == Err(WidthNotPositive)) &&
      (ParseSize(lines[1]).value.0 > 0 && ParseSize(lines[1]).value.1 == 0 ==>
         Decode(input, ops) == Err(HeightNotPositive))
  {
    var lines := HeaderSplit(input).0;
    if SamplesPerPixel(lines[0]).Ok? && ParseSize(lines[1]).Ok? && ParseScale(lines[2], ops).Ok? {
      var (w, h) := ParseSize(lines[1]).value;
      BufferHoldsSamples(w, h, SamplesPerPixel(lines[0]).value);
    }
  }

  /**
   * A file whose three header lines parse, with a positive width and height, decodes to an
   * image of that size, gray exactly when the magic token names one sample per pixel, holding
   * samples per pixel * width * height samples: sample i is word i of the body, read in
   * little-endian order exactly when the scale is negative, times 1 / |scale|.
   */
  lemma DecodeImage(input: seq<Byte>, ops: FloatOps)
    requires HasHeader(input)
    requires var lines := HeaderSplit(input).0;
      SamplesPerPixel(lines[0]).Ok? && ParseSize(lines[1]).Ok? && ParseScale(lines[2], ops).Ok? &&
      ParseSize(lines[1]).value.0 > 0 && ParseSize(lines[1]).value.1 > 0
    ensures var (lines, start) := HeaderSplit(input);
      var spp, size, scale := SamplesPerPixel(lines[0]).value, ParseSize(lines[1]).value, ParseScale(lines[2], ops).value;
      var d := Decode(input, ops);
      d.Ok? && d.value.width == size.0 && d.value.height == size.1 && (d.value.gray <==> spp == 1) &&
      |d.value.samples| == spp * size.0 * size.1 &&
      forall i :: 0 <= i < |d.value.samples| ==>
        d.value.samples[i] == SampleOf(WordAt(Body(input, start, 4 * |d.value.samples|), i, scale < 0.0),
                                       InverseScale(scale, ops), ops)
  {
    var lines := HeaderSplit(input).0;
    var spp, w, h := SamplesPerPixel(lines[0]).value, ParseSize(lines[1]).value.0, ParseSize(lines[1]).value.1;
    BufferHoldsSamples(w, h, spp);
    ProductPositive(w, h);
    assert spp * w * h == spp * (w * h);
  }

  /**
   * PFMReader.read over the bytes of a file. chunks are the sizes the stream is willing
   * to deliver on successive read calls.
   */
  method Read(input: seq<Byte>, chunks: seq<nat>, ops: FloatOps) returns (r: Result<PFMImage>)
    requires HasHeader(input)
    ensures Decode(input, ops).Err? ==> r == Err(Decode(input, ops).error)
    ensures Decode(input, ops).Ok? ==>
      var d := Decode(input, ops).value;
      r.Ok? && fresh(r.value) && fresh(r.value.floats) && r.value.Valid() &&
      r.value.width == d.width && r.value.height == d.height && r.value.gray == d.gray &&
      r.value.floats[..] == d.samples
  {
    var header, pos := ReadHeader(input);
    var magic := SamplesPerPixel(header[0]);
    if magic.Err? {
      return Err(magic.error);
    }
    var samples := magic.value;
    var dimension := ParseSize(header[1]);
    if dimension.Err? {
      return Err(dimension.error);
    }
    var (width, height) := dimension.value;
    var scale := ParseScale(header[2], ops);
    if scale.Err? {
      return Err(scale.error);
    }
    var invScale := InverseScale(scale.value, ops);
    var littleEndian := scale.value < 0.0;
    BufferHoldsSamples(width, height, samples);
    var size := width * height * 4 * samples;
    var bytes, offset := ReadBody(input, pos, size, chunks);
    var floats := DecodeSamples(bytes, samples * width * height, littleEndian, invScale, ops);
    r := PFMImage.New(width, height, floats);
  }
}
