/** The LZFu decoder of compressed RTF: a ring-buffer dictionary that refines a plain history
    (pkg/rtf/decompress.go). */
module LzfuDecoder {
  import opened Common
  import opened Arithmetic

  const HEADER_SIZE: nat := 16
  const PRELOAD_SIZE: nat := 207
  const DICT_SIZE: nat := 4096

  const PRELOAD_TEXT: string :=
    "{\\rtf1\\ansi\\mac\\deff0\\deftab720{\\fonttbl;}{\\f0\\fnil \\froman \\fswiss \\fmodern \\fscript \\fdecor MS Sans SerifSymbolArialTimes New RomanCourier{\\colortbl\\red0\\green0\\blue0\r\n\\par \\pard\\plain\\f0\\fs20\\b\\i\\u\\tab\\tx"

  function Code(c: char): byte {
    c as int % 256
  }

  function Preload(): (p: seq<byte>)
    ensures |p| == PRELOAD_SIZE
  {
    seq<byte>(PRELOAD_SIZE, i requires 0 <= i < PRELOAD_SIZE => Code(PRELOAD_TEXT[i]))
  }

  /** Everything a reference can reach before any output: zeros, then the preloaded text. */
  function Initial(): (h: seq<byte>)
    ensures |h| == DICT_SIZE
  {
    seq<byte>(DICT_SIZE - PRELOAD_SIZE, _ => 0) + Preload()
  }

  // ---------- the plain decoder ----------

  /** The byte `d` back in the history of `out`. */
  function Back(out: seq<byte>, d: nat): byte
    requires 0 < d <= DICT_SIZE
  {
    (Initial() + out)[DICT_SIZE + |out| - d]
  }

  /** `n` bytes copied from distance `d`, each one available to the next. */
  function Copied(out: seq<byte>, d: nat, n: nat): (r: seq<byte>)
    requires 0 < d <= DICT_SIZE
    ensures |r| == |out| + n
    decreases n
  {
    if n == 0 then out else Copied(out + [Back(out, d)], d, n - 1)
  }

  function WritePos(len: nat): nat {
    (PRELOAD_SIZE + len) % DICT_SIZE
  }

  /** Distance from the write position back to dictionary offset `offset`; zero marks the end. */
  function Distance(len: nat, offset: nat): (d: nat)
    ensures d < DICT_SIZE
  {
    (WritePos(len) + DICT_SIZE - offset % DICT_SIZE) % DICT_SIZE
  }

  function Offset(b1: byte, b2: byte): (offset: nat)
    ensures offset < DICT_SIZE
  {
    b1 * 16 + b2 / 16
  }

  function Length(b2: byte): nat {
    b2 % 16 + 2
  }

  predicate IsReference(control: byte, bit: nat)
    requires bit < 8
  {
    control / Power(bit) % 2 == 1
  }

  function Power(k: nat): (p: nat)
    ensures p > 0
  {
    if k == 0 then 1 else 2 * Power(k - 1)
  }

  /** The rest of one control byte: what is left of the input, and the output. */
  function Bits(control: byte, bit: nat, input: seq<byte>, out: seq<byte>, raw: nat): (r: (seq<byte>, seq<byte>))
    requires bit <= 8
    ensures |r.0| <= |input|
    decreases 8 - bit
  {
    if bit == 8 || |out| >= raw then (input, out)
    else if !IsReference(control, bit) then
      if input == [] then (input, out)
      else Bits(control, bit + 1, input[1..], out + [input[0]], raw)
    else if |input| < 2 then ([], out)
    else
      var d := Distance(|out|, Offset(input[0], input[1]));
      var n := Length(input[1]);
      if d == 0 then (input[2..], out)
      else Bits(control, bit + 1, input[2..], Copied(out, d, if n < raw - |out| then n else raw - |out|), raw)
  }

  function Decode(input: seq<byte>, out: seq<byte>, raw: nat): seq<byte>
    decreases |input|
  {
    if |out| >= raw || input == [] then out
    else
      var r := Bits(input[0], 0, input[1..], out, raw);
      Decode(r.0, r.1, raw)
  }

  // ---------- the ring buffer ----------

  /** Cell `p` of the dictionary is the byte written there last. */
  ghost predicate Ring(dict: seq<byte>, out: seq<byte>) {
    && |dict| == DICT_SIZE
    && forall p: nat | p < DICT_SIZE ::
         dict[p] == if Distance(|out|, p) == 0 then Back(out, DICT_SIZE) else Back(out, Distance(|out|, p))
  }

  lemma BackInitial(d: nat)
    requires 0 < d <= DICT_SIZE
    ensures Back([], d) == if d <= PRELOAD_SIZE then Preload()[PRELOAD_SIZE - d] else 0
  {
    hide Preload;
    assert Initial() + [] == Initial();
  }

  lemma BackSnoc(out: seq<byte>, b: byte, d: nat)
    requires 0 < d <= DICT_SIZE
    ensures Back(out + [b], d) == if d == 1 then b else Back(out, d - 1)
  {
    hide Initial;
    assert Initial() + (out + [b]) == (Initial() + out) + [b];
  }

  lemma RingStart(dict: seq<byte>)
    requires |dict| == DICT_SIZE && dict[..PRELOAD_SIZE] == Preload()
    requires forall p | PRELOAD_SIZE <= p < DICT_SIZE :: dict[p] == 0
    ensures Ring(dict, [])
  {
    hide Preload, Back;
    forall p: nat | p < DICT_SIZE
      ensures dict[p] == if Distance(0, p) == 0 then Back([], DICT_SIZE) else Back([], Distance(0, p))
    {
      var d := if Distance(0, p) == 0 then DICT_SIZE else Distance(0, p);
      BackInitial(d);
      if p < PRELOAD_SIZE {
        assert d == PRELOAD_SIZE - p && dict[p] == dict[..PRELOAD_SIZE][p];
      }
    }
  }

  /** Writing at the write position and advancing keeps the ring. */
  lemma RingStep(dict: seq<byte>, out: seq<byte>, b: byte)
    requires Ring(dict, out)
    ensures Ring(dict[WritePos(|out|) := b], out + [b])
    ensures WritePos(|out| + 1) == (WritePos(|out|) + 1) % DICT_SIZE
  {
    hide Back;
    var written := dict[WritePos(|out|) := b];
    forall p: nat | p < DICT_SIZE
      ensures written[p] ==
        if Distance(|out| + 1, p) == 0 then Back(out + [b], DICT_SIZE) else Back(out + [b], Distance(|out| + 1, p))
    {
      DistanceNext(|out|, p);
      BackSnoc(out, b, if Distance(|out| + 1, p) == 0 then DICT_SIZE else Distance(|out| + 1, p));
    }
  }

  lemma DistanceNext(len: nat, p: nat)
    requires p < DICT_SIZE
    ensures Distance(len + 1, p) == if Distance(len, p) == DICT_SIZE - 1 then 0 else Distance(len, p) + 1
    ensures Distance(len, p) == 0 <==> p == WritePos(len)
  {
    var w := WritePos(len);
    assert WritePos(len + 1) == if w == DICT_SIZE - 1 then 0 else w + 1;
    assert p % DICT_SIZE == p;
    assert Distance(len, p) == if w >= p then w - p else w + DICT_SIZE - p;
  }

  lemma BitsStep(control: byte, bit: nat, input: seq<byte>, out: seq<byte>, raw: nat)
    requires bit < 8 && |out| < raw
    ensures !IsReference(control, bit) && input == [] ==> Bits(control, bit, input, out, raw) == (input, out)
    ensures !IsReference(control, bit) && input != [] ==>
      Bits(control, bit, input, out, raw) == Bits(control, bit + 1, input[1..], out + [input[0]], raw)
    ensures IsReference(control, bit) && |input| < 2 ==> Bits(control, bit, input, out, raw) == ([], out)
    ensures IsReference(control, bit) && |input| >= 2 ==>
      var d := Distance(|out|, Offset(input[0], input[1]));
      Bits(control, bit, input, out, raw) ==
        if d == 0 then (input[2..], out)
          else Bits(control, bit + 1, input[2..], Copied(out, d, Wanted(input[1], |out|, raw)), raw)
  {
    hide IsReference, Distance, Copied, Offset;
  }

  function Wanted(b2: byte, len: nat, raw: nat): nat
    requires len <= raw
  {
    if Length(b2) < raw - len then Length(b2) else raw - len
  }

  lemma BitsEnd(control: byte, bit: nat, input: seq<byte>, out: seq<byte>, raw: nat)
    requires bit <= 8
    ensures bit == 8 || |out| >= raw ==> Bits(control, bit, input, out, raw) == (input, out)
  {
  }

  lemma DistanceZero(len: nat, offset: nat)
    requires offset < DICT_SIZE
    ensures Distance(len, offset) == 0 <==> offset == WritePos(len)
  {
  }

  /** Reading and writing move together, so the distance of a copy stays the same. */
  lemma DistanceKept(len: nat, offset: nat, i: nat)
    ensures Distance(len + i, offset + i) == Distance(len, offset)
  {
    var w := PRELOAD_SIZE + len;
    var a, b := w % DICT_SIZE, offset % DICT_SIZE;
    var q1, q2 := w / DICT_SIZE, offset / DICT_SIZE;
    assert w == DICT_SIZE * q1 + a && offset == DICT_SIZE * q2 + b;
    assert (w + i) % DICT_SIZE == (a + i) % DICT_SIZE;
    assert (offset + i) % DICT_SIZE == (b + i) % DICT_SIZE;
  }

  lemma {:induction false} CopiedSnoc(out: seq<byte>, d: nat, n: nat)
    requires 0 < d <= DICT_SIZE
    ensures Copied(out, d, n + 1) == Copied(out, d, n) + [Back(Copied(out, d, n), d)]
    decreases n
  {
    hide Back;
    if n > 0 {
      CopiedSnoc(out + [Back(out, d)], d, n - 1);
    } else {
      assert Copied(out, d, 1) == Copied(out + [Back(out, d)], d, 0);
    }
  }

  lemma RingRead(dict: seq<byte>, out: seq<byte>, p: nat)
    requires Ring(dict, out) && p < DICT_SIZE && Distance(|out|, p) > 0
    ensures dict[p] == Back(out, Distance(|out|, p))
  {
    hide Back, Distance;
  }

  /** The copy loop: byte by byte, so a copy may run into what it just wrote. */
  method CopyReference(dict: array<byte>, pos: nat, offset: nat, length: nat, out: seq<byte>, raw: nat)
    returns (output: seq<byte>, writePos: nat)
    requires dict.Length == DICT_SIZE && Ring(dict[..], out) && pos == WritePos(|out|) && offset < DICT_SIZE
    requires Distance(|out|, offset) > 0 && |out| < raw
    modifies dict
    ensures output == Copied(out, Distance(|out|, offset), if length < raw - |out| then length else raw - |out|)
    ensures Ring(dict[..], output) && writePos == WritePos(|output|)
  {
    hide Ring, Distance, Back;
    ghost var d := Distance(|out|, offset);
    output, writePos := out, pos;
    var i := 0;
    while i < length && |output| < raw
      invariant i <= length && |output| == |out| + i <= raw && output == Copied(out, d, i)
      invariant Ring(dict[..], output) && writePos == WritePos(|output|)
      decreases length - i
    {
      var p := (offset + i) % DICT_SIZE;
      DistanceKept(|out|, offset, i);
      DistanceMod(|output|, offset + i);
      RingRead(dict[..], output, p);
      CopiedSnoc(out, d, i);
      var b := dict[p];
      RingStep(dict[..], output, b);
      output := output + [b];
      dict[writePos] := b;
      writePos := (writePos + 1) % DICT_SIZE;
      i := i + 1;
    }
  }

  lemma DistanceMod(len: nat, offset: nat)
    ensures Distance(len, offset % DICT_SIZE) == Distance(len, offset)
  {
  }

  lemma DecodeStep(input: seq<byte>, out: seq<byte>, raw: nat)
    ensures input != [] && |out| < raw ==>
      var r := Bits(input[0], 0, input[1..], out, raw);
      Decode(input, out, raw) == Decode(r.0, r.1, raw)
    ensures input == [] || |out| >= raw ==> Decode(input, out, raw) == out
  {
    hide Bits;
  }

  /** The decoder with the circular dictionary computes what the plain one does. */
  method NewDictionary() returns (dict: array<byte>)
    ensures fresh(dict) && dict.Length == DICT_SIZE && Ring(dict[..], [])
  {
    hide Initial, Preload, Ring;
    dict := new byte[DICT_SIZE](_ => 0);
    var preload := Preload();
    for i := 0 to PRELOAD_SIZE
      invariant forall p | i <= p < DICT_SIZE :: dict[p] == 0
      invariant dict[..i] == preload[..i]
    {
      dict[i] := preload[i];
    }
    RingStart(dict[..]);
  }

  /** decompressLZFu: what the plain decoder gives on any input; on written tokens, what they say, cut at RawSize. */
  method DecompressLzfu(compressed: seq<byte>, rawSize: nat) returns (output: seq<byte>)
    requires |compressed| >= HEADER_SIZE
    ensures output == Decode(compressed[HEADER_SIZE..], [], rawSize)
    ensures forall ts | Encodable(ts) && Proper(ts, []) && compressed[HEADER_SIZE..] == Written(ts) ::
      output == Cut(Said(ts, []), rawSize)
  {
    output := RingDecode(compressed, rawSize);
    forall ts | Encodable(ts) && Proper(ts, []) && compressed[HEADER_SIZE..] == Written(ts)
      ensures output == Cut(Said(ts, []), rawSize)
    {
      TokensDecode(ts, [], rawSize);
    }
  }

  /** The two loops, over the ring buffer. */
  method RingDecode(compressed: seq<byte>, rawSize: nat) returns (output: seq<byte>)
    requires |compressed| >= HEADER_SIZE
    ensures output == Decode(compressed[HEADER_SIZE..], [], rawSize)
  {
    hide Initial, Preload, Ring, Bits, Distance, Copied, IsReference;
    var dict := NewDictionary();
    var writePos := PRELOAD_SIZE;
    var input := compressed[HEADER_SIZE..];
    output := [];
    ghost var whole := input;
    while |output| < rawSize
      invariant writePos == WritePos(|output|) && Ring(dict[..], output)
      invariant Decode(input, output, rawSize) == Decode(whole, [], rawSize)
      decreases |input|
    {
      if input == [] {
        break;
      }
      var control := input[0];
      assert input == [control] + input[1..];
      input := input[1..];
      ghost var rest := Bits(control, 0, input, output, rawSize);
      DecodeStep([control] + input, output, rawSize);
      var bit := 0;
      while bit < 8 && |output| < rawSize
        invariant bit <= 8 && writePos == WritePos(|output|) && Ring(dict[..], output)
        invariant Bits(control, bit, input, output, rawSize) == rest
        decreases 8 - bit
      {
        BitsStep(control, bit, input, output, rawSize);
        if !IsReference(control, bit) {
          if input == [] {
            assert rest == (input, output);
            break;
          }
          var b := input[0];
          input := input[1..];
          RingStep(dict[..], output, b);
          output := output + [b];
          dict[writePos] := b;
          writePos := (writePos + 1) % DICT_SIZE;
        } else {
          if |input| < 2 {
            input := [];
            assert rest == (input, output);
            break;
          }
          var b1, b2 := input[0], input[1];
          input := input[2..];
          var offset, length := Offset(b1, b2), Length(b2);
          DistanceZero(|output|, offset);
          if offset == writePos {
            assert rest == (input, output);
            break;
          }
          output, writePos := CopyReference(dict, writePos, offset, length, output, rawSize);
        }
        bit := bit + 1;
      }
      BitsEnd(control, bit, input, output, rawSize);
      assert rest == (input, output);
    }
    DecodeStep(input, output, rawSize);
  }

  // ---------- properties of the plain decoder ----------

  lemma {:induction false} BitsBounded(control: byte, bit: nat, input: seq<byte>, out: seq<byte>, raw: nat)
    requires bit <= 8 && |out| <= raw
    ensures var r := Bits(control, bit, input, out, raw); |out| <= |r.1| <= raw
    decreases 8 - bit
  {
    hide IsReference, Distance, Copied, Offset, Bits;
    if bit == 8 || |out| == raw {
      BitsEnd(control, bit, input, out, raw);
    } else {
      BitsStep(control, bit, input, out, raw);
      if !IsReference(control, bit) {
        if input != [] {
          BitsBounded(control, bit + 1, input[1..], out + [input[0]], raw);
        }
      } else if |input| >= 2 {
        var d := Distance(|out|, Offset(input[0], input[1]));
        if d != 0 {
          BitsBounded(control, bit + 1, input[2..], Copied(out, d, Wanted(input[1], |out|, raw)), raw);
        }
      }
    }
  }

  /** No input makes the output longer than the header's RawSize. */
  lemma {:induction false} DecodeBounded(input: seq<byte>, out: seq<byte>, raw: nat)
    requires |out| <= raw
    ensures |out| <= |Decode(input, out, raw)| <= raw
    decreases |input|
  {
    hide Bits, Decode;
    DecodeStep(input, out, raw);
    if input != [] && |out| < raw {
      var r := Bits(input[0], 0, input[1..], out, raw);
      BitsBounded(input[0], 0, input[1..], out, raw);
      DecodeBounded(r.0, r.1, raw);
    }
  }

  /** A copy that overlaps its own output repeats the last `d` bytes of the history. */
  lemma {:induction false} CopiedRepeats(out: seq<byte>, d: nat, n: nat, k: nat)
    requires 0 < d <= DICT_SIZE && k < n
    ensures Copied(out, d, n)[|out| + k] == Back(out, d - k % d)
    decreases n
  {
    hide Back, Copied;
    CopiedSnoc(out, d, n - 1);
    ModStep(k, d);
    if k < n - 1 {
      CopiedRepeats(out, d, n - 1, k);
    } else if k < d {
      BackCopied(out, d, k, d);
    } else {
      CopiedRepeats(out, d, k, k - d);
      BackRecent(Copied(out, d, k), d);
    }
  }

  lemma ModStep(k: nat, d: nat)
    requires d > 0
    ensures 0 <= k % d < d
    ensures k < d ==> k % d == k
    ensures k >= d ==> k % d == (k - d) % d
  {
    if k >= d {
      assert k - d == d * (k / d - 1) + k % d;
      assert k % d < d;
      UniqueMod(k - d, d, k / d - 1, k % d);
    }
  }

  lemma BackRecent(out: seq<byte>, d: nat)
    requires 0 < d <= DICT_SIZE && d <= |out|
    ensures Back(out, d) == out[|out| - d]
  {
    hide Initial;
  }

  lemma {:induction false} BackCopied(out: seq<byte>, d: nat, k: nat, e: nat)
    requires 0 < d <= DICT_SIZE && k < e <= DICT_SIZE
    ensures Back(Copied(out, d, k), e) == Back(out, e - k)
    decreases k
  {
    hide Back;
    if k > 0 {
      CopiedSnoc(out, d, k - 1);
      BackSnoc(Copied(out, d, k - 1), Back(Copied(out, d, k - 1), d), e);
      BackCopied(out, d, k - 1, e - 1);
    }
  }

  /** Where the tokens of one control byte come to a reference at the write position, the end marker, while output is
      still wanted: the input behind it and the output so far. */
  function Marker(control: byte, bit: nat, input: seq<byte>, out: seq<byte>, raw: nat): Option<(seq<byte>, seq<byte>)>
    requires bit <= 8
    decreases 8 - bit
  {
    if bit == 8 || |out| >= raw then None
    else if !IsReference(control, bit) then
      if input == [] then None else Marker(control, bit + 1, input[1..], out + [input[0]], raw)
    else if |input| < 2 then None
    else if Offset(input[0], input[1]) == WritePos(|out|) then Some((input[2..], out))
    else
      DistanceZero(|out|, Offset(input[0], input[1]));
      Marker(control, bit + 1, input[2..],
             Copied(out, Distance(|out|, Offset(input[0], input[1])), Wanted(input[1], |out|, raw)), raw)
  }

  lemma {:induction false} MarkerEndsBits(control: byte, bit: nat, input: seq<byte>, out: seq<byte>, raw: nat)
    requires bit <= 8 && Marker(control, bit, input, out, raw).Some?
    ensures Bits(control, bit, input, out, raw) == Marker(control, bit, input, out, raw).value
    ensures |out| <= |Marker(control, bit, input, out, raw).value.1| < raw
    decreases 8 - bit
  {
    hide Bits, IsReference, Offset, Distance, Copied;
    BitsStep(control, bit, input, out, raw);
    if !IsReference(control, bit) {
      MarkerEndsBits(control, bit + 1, input[1..], out + [input[0]], raw);
    } else {
      DistanceZero(|out|, Offset(input[0], input[1]));
      if Offset(input[0], input[1]) != WritePos(|out|) {
        var d := Distance(|out|, Offset(input[0], input[1]));
        MarkerEndsBits(control, bit + 1, input[2..], Copied(out, d, Wanted(input[1], |out|, raw)), raw);
      }
    }
  }

  /** The input still holds a token that adds output: a literal, or a reference off the write position. Markers right
      behind their control bytes are passed over. */
  predicate Productive(input: seq<byte>, out: seq<byte>)
    decreases |input|
  {
    && |input| >= 2
    && (!IsReference(input[0], 0)
        || (|input| >= 3 && (Offset(input[1], input[2]) != WritePos(|out|) || Productive(input[3..], out))))
  }

  lemma {:induction false} Produces(input: seq<byte>, out: seq<byte>, raw: nat)
    requires |out| < raw
    ensures Decode(input, out, raw) != out <==> Productive(input, out)
    decreases |input|
  {
    hide Bits, Decode, IsReference, Offset, Distance, Copied;
    DecodeStep(input, out, raw);
    if input != [] {
      var rest := input[1..];
      BitsStep(input[0], 0, rest, out, raw);
      var r := Bits(input[0], 0, rest, out, raw);
      BitsBounded(input[0], 0, rest, out, raw);
      DecodeBounded(r.0, r.1, raw);
      if !IsReference(input[0], 0) {
        if rest != [] {
          BitsBounded(input[0], 1, rest[1..], out + [rest[0]], raw);
        } else {
          DecodeStep(rest, out, raw);
        }
      } else if |rest| < 2 {
        DecodeStep([], out, raw);
      } else {
        DistanceZero(|out|, Offset(rest[0], rest[1]));
        var d := Distance(|out|, Offset(rest[0], rest[1]));
        if d == 0 {
          assert rest[2..] == input[3..];
          Produces(input[3..], out, raw);
        } else {
          BitsBounded(input[0], 1, rest[2..], Copied(out, d, Wanted(rest[1], |out|, raw)), raw);
        }
      }
    }
  }

  /** An end marker, at whichever bit it stands, only ends its own control byte: decoding goes on with what follows.
      So it ends the output exactly when nothing that follows produces any. */
  lemma EndMarkerContinues(control: byte, input: seq<byte>, out: seq<byte>, raw: nat)
    requires Marker(control, 0, input, out, raw).Some?
    ensures var (rest, sofar) := Marker(control, 0, input, out, raw).value;
      && Decode([control] + input, out, raw) == Decode(rest, sofar, raw)
      && (Decode([control] + input, out, raw) == sofar <==> !Productive(rest, sofar))
  {
    hide Bits, Decode, Marker, Productive;
    MarkerEndsBits(control, 0, input, out, raw);
    var m := Marker(control, 0, input, out, raw).value;
    assert ([control] + input)[1..] == input;
    DecodeStep([control] + input, out, raw);
    Produces(m.0, m.1, raw);
  }

  /** The simplest encoder: groups of eight literals under a zero control byte. */
  function Literals(s: seq<byte>): seq<byte> {
    if s == [] then []
    else if |s| <= 8 then [0] + s
    else [0] + s[..8] + Literals(s[8..])
  }

  lemma NoReference(bit: nat)
    requires bit < 8
    ensures !IsReference(0, bit)
  {
  }

  lemma {:induction false} LiteralBits(bit: nat, s: seq<byte>, rest: seq<byte>, out: seq<byte>, raw: nat)
    requires bit + |s| <= 8 && |out| + |s| <= raw && (bit + |s| == 8 || |out| + |s| == raw)
    ensures Bits(0, bit, s + rest, out, raw) == (rest, out + s)
    decreases |s|
  {
    hide IsReference, Bits;
    if s == [] {
      assert s + rest == rest && out + s == out;
      BitsEnd(0, bit, rest, out, raw);
    } else {
      NoReference(bit);
      BitsStep(0, bit, s + rest, out, raw);
      assert (s + rest)[1..] == s[1..] + rest && (out + [s[0]]) + s[1..] == out + s;
      LiteralBits(bit + 1, s[1..], rest, out + [s[0]], raw);
    }
  }

  /** Every byte string has an encoding that decodes to it. */
  lemma {:induction false} LiteralsRoundTrip(s: seq<byte>, out: seq<byte>)
    ensures Decode(Literals(s), out, |out| + |s|) == out + s
    decreases |s|
  {
    hide Bits, Decode;
    var raw := |out| + |s|;
    var input := Literals(s);
    DecodeStep(input, out, raw);
    if s == [] {
      assert out + s == out;
    } else {
      var head := if |s| <= 8 then s else s[..8];
      var rest := if |s| <= 8 then [] else Literals(s[8..]);
      assert input[0] == 0 && input[1..] == head + rest;
      LiteralBits(0, head, rest, out, raw);
      if |s| <= 8 {
        DecodeStep(rest, out + head, raw);
      } else {
        assert (out + head) + s[8..] == out + s;
        LiteralsRoundTrip(s[8..], out + head);
      }
    }
  }

  // ---------- tokens ----------

  /** What compressed text says: a byte itself, or `len` bytes from dictionary position `pos` on. */
  datatype Token = Literal(b: byte) | Copy(pos: nat, len: nat)

  /** The byte at a dictionary position: output byte k stands at position 207 + k, modulo 4096, and the last one there
      counts; before any output there is the preloaded text, then zeros. */
  function Cell(out: seq<byte>, pos: nat): byte {
    if out == [] then (if pos < PRELOAD_SIZE then Code(PRELOAD_TEXT[pos]) else 0)
    else if (PRELOAD_SIZE + |out| - 1) % DICT_SIZE == pos then out[|out| - 1]
    else Cell(out[..|out| - 1], pos)
  }

  /** `n` bytes read off the dictionary position by position, each one written before the next is read. */
  function Replayed(out: seq<byte>, pos: nat, n: nat): (r: seq<byte>)
    ensures out <= r && |r| == |out| + n
    decreases n
  {
    if n == 0 then out
    else
      var r := Replayed(out + [Cell(out, pos % DICT_SIZE)], pos + 1, n - 1);
      assert r[..|out|] == r[..|out| + 1][..|out|] == out;
      r
  }

  function SaidBy(t: Token, out: seq<byte>): (r: seq<byte>)
    ensures out <= r
  {
    match t case Literal(b) => out + [b] case Copy(pos, len) => Replayed(out, pos, len)
  }

  /** The text the tokens stand for, after `out`. */
  function Said(ts: seq<Token>, out: seq<byte>): (r: seq<byte>)
    ensures out <= r
    decreases |ts|
  {
    if ts == [] then out else Said(ts[1..], SaidBy(ts[0], out))
  }

  /** Copies are of 2 to 17 bytes from a position other than the one written next. */
  ghost predicate Proper(ts: seq<Token>, out: seq<byte>)
    decreases |ts|
  {
    ts == []
    || ((ts[0].Copy? ==> ts[0].pos < 4096 && 2 <= ts[0].len <= 17 && ts[0].pos != (207 + |out|) % 4096)
        && Proper(ts[1..], SaidBy(ts[0], out)))
  }

  /** Which of up to eight tokens are copies, the first in the lowest bit. */
  function Flags(ts: seq<Token>): nat {
    if ts == [] then 0 else (if ts[0].Copy? then 1 else 0) + 2 * Flags(ts[1..])
  }

  lemma {:induction false} FlagsSmall(ts: seq<Token>)
    ensures Flags(ts) < Power(|ts|)
    decreases |ts|
  {
    if ts != [] {
      FlagsSmall(ts[1..]);
    }
  }

  /** A literal is its byte; a copy is its position in twelve bits, high ones first, and its length less two in four. */
  function TokenBytes(t: Token): seq<byte>
    requires t.Copy? ==> t.pos < 4096 && 2 <= t.len <= 17
  {
    match t case Literal(b) => [b] case Copy(pos, len) => [pos / 16, pos % 16 * 16 + (len - 2)]
  }

  predicate Encodable(ts: seq<Token>) {
    forall i | 0 <= i < |ts| && ts[i].Copy? :: ts[i].pos < 4096 && 2 <= ts[i].len <= 17
  }

  function AllBytes(ts: seq<Token>): seq<byte>
    requires Encodable(ts)
    decreases |ts|
  {
    if ts == [] then [] else TokenBytes(ts[0]) + AllBytes(ts[1..])
  }

  /** One control byte and up to eight tokens. */
  function Group(ts: seq<Token>): seq<byte>
    requires Encodable(ts) && |ts| <= 8
  {
    FlagsSmall(ts);
    assert Power(8) == 256;
    SmallerPower(|ts|, 8);
    [Flags(ts)] + AllBytes(ts)
  }

  lemma {:induction false} SmallerPower(a: nat, b: nat)
    requires a <= b
    ensures Power(a) <= Power(b)
    decreases b - a
  {
    if a < b {
      SmallerPower(a, b - 1);
    }
  }

  function Written(ts: seq<Token>): seq<byte>
    requires Encodable(ts)
    decreases |ts|
  {
    if ts == [] then []
    else if |ts| <= 8 then Group(ts)
    else Group(ts[..8]) + Written(ts[8..])
  }

  lemma {:induction false} ProperEncodable(ts: seq<Token>, out: seq<byte>)
    requires Proper(ts, out)
    ensures Encodable(ts)
    decreases |ts|
  {
    if ts != [] {
      ProperEncodable(ts[1..], SaidBy(ts[0], out));
      assert forall i | 0 < i < |ts| :: ts[i] == ts[1..][i - 1];
    }
  }

  // ---------- the dictionary as a history ----------

  lemma CellStart(pos: nat)
    requires pos < DICT_SIZE && pos != PRELOAD_SIZE
    ensures WritePos(0) == PRELOAD_SIZE && 0 < Distance(0, pos) && Back([], Distance(0, pos)) == Cell([], pos)
  {
    hide Code;
    var none: seq<byte> := [];
    assert Initial() + none == Initial();
    var d := Distance(0, pos);
    assert d == if pos < PRELOAD_SIZE then PRELOAD_SIZE - pos else PRELOAD_SIZE + DICT_SIZE - pos;
  }

  /** Off the write position, a dictionary position holds the byte its distance back in the history. */
  lemma {:induction false} CellBack(out: seq<byte>, pos: nat)
    requires pos < DICT_SIZE && pos != WritePos(|out|)
    ensures 0 < Distance(|out|, pos) && Back(out, Distance(|out|, pos)) == Cell(out, pos)
    decreases |out|
  {
    hide Back, Distance, Code, Initial;
    DistanceNext(|out|, pos);
    if out == [] {
      CellStart(pos);
    } else {
      var last := |out| - 1;
      var was := out[..last];
      assert out == was + [out[last]];
      DistanceNext(last, pos);
      BackSnoc(was, out[last], Distance(|out|, pos));
      if pos != WritePos(last) {
        CellBack(was, pos);
      }
    }
  }

  lemma {:induction false} ReplayedCopied(out: seq<byte>, pos: nat, n: nat)
    requires pos % DICT_SIZE != WritePos(|out|)
    ensures 0 < Distance(|out|, pos) && Copied(out, Distance(|out|, pos), n) == Replayed(out, pos, n)
    decreases n
  {
    hide Distance, Back, Cell, WritePos;
    DistanceMod(|out|, pos);
    CellBack(out, pos % DICT_SIZE);
    if n > 0 {
      DistanceKept(|out|, pos, 1);
      DistanceMod(|out| + 1, pos + 1);
      DistanceZero(|out| + 1, (pos + 1) % DICT_SIZE);
      ReplayedCopied(out + [Cell(out, pos % DICT_SIZE)], pos + 1, n - 1);
    }
  }

  // ---------- tokens through the decoder ----------

  lemma HalfOf(x: nat, a: nat, p: nat)
    requires a < 2 && p > 0
    ensures (2 * x + a) / (2 * p) == x / p
  {
    var q, r := x / p, x % p;
    assert 2 * x + a == (2 * p) * q + (2 * r + a) && 2 * r + a < 2 * p;
    UniqueMod(2 * x + a, 2 * p, q, 2 * r + a);
  }

  /** Bit `k` of the control byte says whether token `k` is a copy; bits behind the last token are clear. */
  lemma {:induction false} FlagAt(ts: seq<Token>, k: nat)
    requires |ts| <= 8 && k < 8 && Flags(ts) < 256
    ensures IsReference(Flags(ts), k) <==> k < |ts| && ts[k].Copy?
    decreases k
  {
    if ts == [] {
      assert 0 / Power(k) == 0;
    } else {
      var rest := Flags(ts[1..]);
      var a := if ts[0].Copy? then 1 else 0;
      assert Flags(ts) == 2 * rest + a;
      if k > 0 {
        FlagAt(ts[1..], k - 1);
        HalfOf(rest, a, Power(k - 1));
      }
    }
  }

  /** As much of the text as is wanted. */
  function Cut(s: seq<byte>, raw: nat): seq<byte> {
    if |s| <= raw then s else s[..raw]
  }

  lemma {:induction false} ReplayedLess(out: seq<byte>, pos: nat, n: nat, m: nat)
    requires m <= n
    ensures Replayed(out, pos, m) == Replayed(out, pos, n)[..|out| + m]
    decreases m
  {
    if m > 0 {
      hide Cell;
      ReplayedLess(out + [Cell(out, pos % DICT_SIZE)], pos + 1, n - 1, m - 1);
    }
  }

  /** What a reference makes the plain decoder do is what the copy says, as far as it is wanted. */
  lemma CopySaid(out: seq<byte>, pos: nat, len: nat, raw: nat)
    requires pos < 4096 && 2 <= len <= 17 && pos != (207 + |out|) % 4096 && |out| < raw
    ensures pos / 16 < 256 && pos % 16 * 16 + (len - 2) < 256
    ensures var b1: byte, b2: byte := pos / 16, pos % 16 * 16 + (len - 2);
      var d := Distance(|out|, Offset(b1, b2));
      && d != 0 && Copied(out, d, Wanted(b2, |out|, raw)) == Cut(Replayed(out, pos, len), raw)
  {
    var b1: byte, b2: byte := pos / 16, pos % 16 * 16 + (len - 2);
    assert b2 / 16 == pos % 16 && b2 % 16 == len - 2;
    assert Offset(b1, b2) == pos && Length(b2) == len;
    hide Distance, Copied, Replayed;
    ReplayedCopied(out, pos, Wanted(b2, |out|, raw));
    ReplayedLess(out, pos, len, Wanted(b2, |out|, raw));
    assert Replayed(out, pos, len)[..|out| + len] == Replayed(out, pos, len);
  }

  lemma SaidMore(ts: seq<Token>, out: seq<byte>, raw: nat)
    requires |out| >= raw
    ensures Cut(Said(ts, out), raw) == out[..raw] && |Said(ts, out)| >= raw
  {
    var s := Said(ts, out);
    assert s[..raw] == s[..|out|][..raw] == out[..raw];
  }

  /** One copy, as the decoder takes it. */
  lemma CopyBits(control: byte, bit: nat, pos: nat, len: nat, input: seq<byte>, out: seq<byte>, raw: nat)
    requires bit < 8 && IsReference(control, bit) && |out| < raw
    requires pos < 4096 && 2 <= len <= 17 && pos != (207 + |out|) % 4096
    ensures Bits(control, bit, TokenBytes(Copy(pos, len)) + input, out, raw)
         == Bits(control, bit + 1, input, Cut(Replayed(out, pos, len), raw), raw)
  {
    hide Bits, IsReference, Offset, Distance, Copied, Replayed, Cut;
    var all := TokenBytes(Copy(pos, len)) + input;
    CopySaid(out, pos, len, raw);
    BitsStep(control, bit, all, out, raw);
    assert all[2..] == input;
  }

  lemma LiteralBit(control: byte, bit: nat, b: byte, input: seq<byte>, out: seq<byte>, raw: nat)
    requires bit < 8 && !IsReference(control, bit) && |out| < raw
    ensures Bits(control, bit, TokenBytes(Literal(b)) + input, out, raw) == Bits(control, bit + 1, input, out + [b],
        raw)
  {
    hide Bits, IsReference;
    var all := TokenBytes(Literal(b)) + input;
    BitsStep(control, bit, all, out, raw);
    assert all[1..] == input;
  }

  /** The tokens of one control byte, from token `k` on. */
  lemma {:induction false} GroupBits(all: seq<Token>, k: nat, rest: seq<byte>, out: seq<byte>, raw: nat)
    requires k <= |all| <= 8 && Encodable(all) && Flags(all) < 256 && Proper(all[k..], out) && |out| <= raw
    requires |all| == 8 || rest == []
    ensures var s := Said(all[k..], out); var r := Bits(Flags(all), k, AllBytes(all[k..]) + rest, out, raw);
      r.1 == Cut(s, raw) && (|s| < raw ==> r.0 == rest)
    decreases |all| - k
  {
    hide Bits, IsReference, Replayed, Flags, TokenBytes, Cut;
    var ts := all[k..];
    var control := Flags(all);
    if k == |all| || |out| == raw {
      EndBits(all, k, rest, out, raw);
    } else {
      FlagAt(all, k);
      assert ts[0] == all[k] && ts[1..] == all[k + 1..];
      var input := AllBytes(ts[1..]) + rest;
      assert AllBytes(ts) + rest == TokenBytes(ts[0]) + input;
      match ts[0]
      case Literal(b) =>
        LiteralBit(control, k, b, input, out, raw);
        GroupBits(all, k + 1, rest, out + [b], raw);
      case Copy(pos, len) =>
        CopyBits(control, k, pos, len, input, out, raw);
        var full := Replayed(out, pos, len);
        if |full| <= raw {
          CutWhole(full, raw);
          GroupBits(all, k + 1, rest, full, raw);
        } else {
          SaidMore(ts[1..], full, raw);
          CutShort(full, raw);
          BitsEnd(control, k + 1, input, full[..raw], raw);
        }
    }
  }

  lemma CutWhole(s: seq<byte>, raw: nat)
    requires |s| <= raw
    ensures Cut(s, raw) == s
  {
  }

  lemma CutShort(s: seq<byte>, raw: nat)
    requires |s| > raw
    ensures Cut(s, raw) == s[..raw]
  {
  }

  lemma EndBits(all: seq<Token>, k: nat, rest: seq<byte>, out: seq<byte>, raw: nat)
    requires k <= |all| <= 8 && Encodable(all) && Flags(all) < 256 && |out| <= raw
    requires (|all| == 8 || rest == []) && (k == |all| || |out| == raw)
    ensures var s := Said(all[k..], out); var r := Bits(Flags(all), k, AllBytes(all[k..]) + rest, out, raw);
      r.1 == Cut(s, raw) && (|s| < raw ==> r.0 == rest)
  {
    hide Bits, IsReference, Flags, TokenBytes;
    var input := AllBytes(all[k..]) + rest;
    BitsEnd(Flags(all), k, input, out, raw);
    if |out| == raw {
      SaidMore(all[k..], out, raw);
      assert out[..raw] == out;
    } else {
      assert all[k..] == [] && input == rest;
      if k < 8 {
        FlagAt(all, k);
        BitsStep(Flags(all), k, input, out, raw);
      }
    }
  }

  lemma {:induction false} SaidSplit(a: seq<Token>, b: seq<Token>, out: seq<byte>)
    ensures Said(a + b, out) == Said(b, Said(a, out))
    ensures Proper(a + b, out) ==> Proper(a, out) && Proper(b, Said(a, out))
    decreases |a|
  {
    if a == [] {
      assert a + b == b;
    } else {
      assert (a + b)[1..] == a[1..] + b && (a + b)[0] == a[0];
      SaidSplit(a[1..], b, SaidBy(a[0], out));
    }
  }

  /** Every proper list of tokens, written as flags and bytes, decodes to what it says, cut at the wanted size. */
  lemma {:induction false} TokensDecode(ts: seq<Token>, out: seq<byte>, raw: nat)
    requires Proper(ts, out) && |out| <= raw
    ensures Encodable(ts) && Decode(Written(ts), out, raw) == Cut(Said(ts, out), raw)
    decreases |ts|
  {
    hide Bits, Decode, Flags, AllBytes, Cut;
    ProperEncodable(ts, out);
    if ts == [] {
      DecodeStep([], out, raw);
      CutWhole(out, raw);
    } else {
      var n := if |ts| <= 8 then |ts| else 8;
      var head, tail := ts[..n], ts[n..];
      assert ts == head + tail;
      SaidSplit(head, tail, out);
      ProperEncodable(tail, Said(head, out));
      GroupDecodes(head, Written(tail), out, raw);
      assert Written(ts) == Group(head) + Written(tail) by {
        if |ts| <= 8 {
          assert head == ts && tail == [];
          assert Group(head) + [] == Group(head);
        }
      }
      var s := Said(head, out);
      if |s| < raw {
        TokensDecode(tail, s, raw);
      } else {
        SaidMore(tail, s, raw);
        DecodeStep(Written(tail), s[..raw], raw);
      }
    }
  }

  /** One group. */
  lemma GroupDecodes(head: seq<Token>, rest: seq<byte>, out: seq<byte>, raw: nat)
    requires head != [] && |head| <= 8 && Encodable(head) && Proper(head, out) && |out| <= raw &&
      (|head| == 8 || rest == [])
    ensures var s := Said(head, out);
      Decode(Group(head) + rest, out, raw) == if |s| < raw then Decode(rest, s, raw) else s[..raw]
  {
    hide Bits, Decode, Flags, AllBytes;
    var input := Group(head) + rest;
    var s := Said(head, out);
    assert head[0..] == head && input[0] == Flags(head) && input[1..] == AllBytes(head) + rest;
    GroupBits(head, 0, rest, out, raw);
    DecodeStep(input, out, raw);
    if |out| < raw {
      var r := Bits(input[0], 0, input[1..], out, raw);
      DecodeStep(r.0, r.1, raw);
    } else {
      SaidMore(head, out, raw);
      assert out[..raw] == out;
    }
  }
}
