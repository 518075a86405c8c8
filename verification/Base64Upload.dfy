/** Uploading a file over SSH as base64 text in slices (internal/certificate/service.go, uploadFileSSH); the encoding
    is the one of section 4 of RFC 4648. */
module Base64Upload {
  import opened Common
  import Quoting

  type Byte = b: int | 0 <= b < 256

  type Digit = d: int | 0 <= d < 64

  function DigitChar(d: Digit): char {
    if d < 26 then 'A' + d as char
    else if d < 52 then 'a' + (d - 26) as char
    else if d < 62 then '0' + (d - 52) as char
    else if d == 62 then '+' else '/'
  }

  function CharDigit(c: char): Option<Digit> {
    if 'A' <= c <= 'Z' then Some((c - 'A') as int)
    else if 'a' <= c <= 'z' then Some((c - 'a') as int + 26)
    else if '0' <= c <= '9' then Some((c - '0') as int + 52)
    else if c == '+' then Some(62) else if c == '/' then Some(63) else None
  }

  lemma DigitRoundTrip(d: Digit)
    ensures CharDigit(DigitChar(d)) == Some(d) && DigitChar(d) !in "='\\ \t\n\""
  {
  }

  const UPPER := "ABCDEFGHIJKLMNOPQRSTUVWXYZ"
  const LOWER := "abcdefghijklmnopqrstuvwxyz"
  const NUMERALS := "0123456789"

  /** Digits are written in the standard alphabet, table 1 of RFC 4648. */
  lemma StandardAlphabet(d: Digit)
    ensures |UPPER| == 26 == |LOWER| && |NUMERALS| == 10 && DigitChar(d) == (UPPER + (LOWER + (NUMERALS + "+/")))[d]
  {
    InOrder('A', UPPER);
    InOrder('a', LOWER);
    InOrder('0', NUMERALS);
    AlphabetAt(UPPER, LOWER, NUMERALS, d);
  }

  lemma AlphabetAt(upper: string, lower: string, numerals: string, d: Digit)
    requires |upper| == 26 == |lower| && |numerals| == 10
    requires forall i | 0 <= i < 26 :: upper[i] as int == 'A' as int + i && lower[i] as int == 'a' as int + i
    requires forall i | 0 <= i < 10 :: numerals[i] as int == '0' as int + i
    ensures DigitChar(d) == (upper + (lower + (numerals + "+/")))[d]
  {
  }

  /** One after the other. */
  ghost predicate Consecutive(text: string) {
    forall i | 1 <= i < |text| :: text[i] as int == text[i - 1] as int + 1
  }

  lemma {:induction false} InOrderAt(text: string, i: nat)
    requires i < |text| && Consecutive(text)
    ensures text[i] as int == text[0] as int + i
  {
    if i > 0 {
      InOrderAt(text, i - 1);
    }
  }

  lemma InOrder(first: char, text: string)
    requires text != "" && text[0] == first && Consecutive(text)
    ensures forall i | 0 <= i < |text| :: text[i] as int == first as int + i
  {
    forall i | 0 <= i < |text| ensures text[i] as int == first as int + i {
      InOrderAt(text, i);
    }
  }

  // ---- Encoding ----

  /** Three bytes as four digits. */
  function Quantum(a: Byte, b: Byte, c: Byte): (q: string)
    ensures |q| == 4
  {
    [DigitChar(a / 4), DigitChar(a % 4 * 16 + b / 16), DigitChar(b % 16 * 4 + c / 64), DigitChar(c % 64)]
  }

  /** The four digits are the 24 bits of the three bytes, six at a time. */
  lemma QuantumBits(a: Byte, b: Byte, c: Byte)
    returns (p: Digit, q: Digit, r: Digit, s: Digit)
    ensures Quantum(a, b, c) == [DigitChar(p), DigitChar(q), DigitChar(r), DigitChar(s)]
    ensures ((p * 64 + q) * 64 + r) * 64 + s == (a * 256 + b) * 256 + c
  {
    p, q, r, s := a / 4, a % 4 * 16 + b / 16, b % 16 * 4 + c / 64, c % 64;
    SplitByte(a, 4);
    SplitByte(b, 16);
    SplitByte(c, 64);
  }

  lemma SplitByte(x: int, n: int)
    requires n > 0
    ensures x == x / n * n + x % n
  {
  }

  function Encode(data: seq<Byte>): (text: string)
    ensures |text| == (|data| + 2) / 3 * 4
  {
    if data == [] then ""
    else if |data| == 1 then Quantum(data[0], 0, 0)[..2] + "=="
    else if |data| == 2 then Quantum(data[0], data[1], 0)[..3] + "="
    else Quantum(data[0], data[1], data[2]) + Encode(data[3..])
  }

  // ---- Decoding: padding is accepted only at the very end ----

  function Bytes(p: Digit, q: Digit, r: Digit, s: Digit): seq<Byte> {
    [p * 4 + q / 16, q % 16 * 16 + r / 4, r % 4 * 64 + s]
  }

  function DecodeQuantum(p: char, q: char, r: char, s: char): Option<seq<Byte>> {
    match (CharDigit(p), CharDigit(q), CharDigit(r), CharDigit(s))
    case (Some(a), Some(b), Some(c), Some(d)) => Some(Bytes(a, b, c, d))
    case (Some(a), Some(b), Some(c), None) => if s == '=' then Some(Bytes(a, b, c, 0)[..2]) else None
    case (Some(a), Some(b), None, None) => if r == '=' && s == '=' then Some(Bytes(a, b, 0, 0)[..1]) else None
    case _ => None
  }

  function Decode(text: string): Option<seq<Byte>> {
    if text == "" then Some([])
    else if |text| < 4 then None
    else
      match (DecodeQuantum(text[0], text[1], text[2], text[3]), Decode(text[4..]))
      case (Some(first), Some(rest)) => if |first| == 3 || |text| == 4 then Some(first + rest) else None
      case _ => None
  }

  lemma BytesOfDigits(a: Byte, b: Byte, c: Byte)
    ensures Bytes(a / 4, a % 4 * 16 + b / 16, b % 16 * 4 + c / 64, c % 64) == [a, b, c]
  {
    assert (a % 4 * 16 + b / 16) / 16 == a % 4 && (a % 4 * 16 + b / 16) % 16 == b / 16;
    assert (b % 16 * 4 + c / 64) / 4 == b % 16 && (b % 16 * 4 + c / 64) % 4 == c / 64;
  }

  lemma QuantumRoundTrip(a: Byte, b: Byte, c: Byte)
    ensures var q := Quantum(a, b, c);
            && DecodeQuantum(q[0], q[1], q[2], q[3]) == Some([a, b, c])
            && (c == 0 ==> DecodeQuantum(q[0], q[1], q[2], '=') == Some([a, b]))
            && (b == 0 && c == 0 ==> DecodeQuantum(q[0], q[1], '=', '=') == Some([a]))
  {
    hide DigitChar, CharDigit, Bytes;
    DigitRoundTrip(a / 4);
    DigitRoundTrip(a % 4 * 16 + b / 16);
    DigitRoundTrip(b % 16 * 4 + c / 64);
    DigitRoundTrip(c % 64);
    BytesOfDigits(a, b, c);
    assert [a, b, c][..2] == [a, b] && [a, b, c][..1] == [a];
    PadIsNoDigit();
  }

  lemma PadIsNoDigit()
    ensures CharDigit('=') == None
  {
  }

  lemma {:induction false} DecodeEncode(data: seq<Byte>)
    ensures Decode(Encode(data)) == Some(data)
  {
    hide Quantum, DecodeQuantum;
    if data != [] {
      var a, b, c := data[0], if |data| > 1 then data[1] else 0, if |data| > 2 then data[2] else 0;
      QuantumRoundTrip(a, b, c);
      if |data| >= 3 {
        DecodeEncode(data[3..]);
        assert Encode(data)[4..] == Encode(data[3..]);
        assert [a, b, c] + data[3..] == data;
      } else {
        assert Encode(data)[4..] == "";
        assert Decode("") == Some([]);
        var q, text := Quantum(a, b, c), Encode(data);
        assert text[4..] == "";
        if |data| == 1 {
          assert text == q[..2] + "==" && data == [a];
          assert DecodeQuantum(text[0], text[1], text[2], text[3]) == Some(data);
        } else {
          assert text == q[..3] + "=" && data == [a, b];
          assert DecodeQuantum(text[0], text[1], text[2], text[3]) == Some(data);
        }
        assert data + [] == data;
      }
    }
  }

  /** Cutting the text after k whole quanta is cutting the data after 3k bytes. */
  lemma {:induction false} EncodeCut(data: seq<Byte>, k: nat)
    requires 3 * k <= |data|
    ensures 4 * k <= |Encode(data)|
    ensures Encode(data)[..4 * k] == Encode(data[..3 * k])
    ensures Encode(data)[4 * k..] == Encode(data[3 * k..])
  {
    hide Quantum;
    if k == 0 {
      assert data[3 * k..] == data && Encode(data)[..0] == "";
    } else {
      EncodeCut(data[3..], k - 1);
      assert data[3..][..3 * (k - 1)] == data[..3 * k][3..];
      assert data[3..][3 * (k - 1)..] == data[3 * k..];
      var q := Quantum(data[0], data[1], data[2]);
      var rest := Encode(data[3..]);
      assert Encode(data)[..4 * k] == q + rest[..4 * (k - 1)];
      assert Encode(data)[4 * k..] == rest[4 * (k - 1)..];
    }
  }

  // ---- Slices ----

  /** The text a remote file collects when each slice of `size` characters is decoded on its own and appended. */
  function DecodeSlices(text: string, size: nat): Option<seq<Byte>>
    requires size > 0
  {
    if text == "" then Some([])
    else if |text| <= size then Decode(text)
    else
      match (Decode(text[..size]), DecodeSlices(text[size..], size))
      case (Some(first), Some(rest)) => Some(first + rest)
      case _ => None
  }

  /** A slice size that is a multiple of four loses nothing. */
  lemma {:induction false} SlicesReassemble(data: seq<Byte>, size: nat)
    requires size > 0 && size % 4 == 0
    ensures DecodeSlices(Encode(data), size) == Some(data)
    decreases |data|
  {
    hide Encode, Decode;
    var text := Encode(data);
    if data == [] {
      assert |text| == 0;
    } else if |text| <= size {
      DecodeEncode(data);
    } else {
      var k := size / 4;
      EncodeCut(data, k);
      DecodeEncode(data[..3 * k]);
      SlicesReassemble(data[3 * k..], size);
      assert data[..3 * k] + data[3 * k..] == data;
    }
  }

  lemma {:induction false} DecodableLength(text: string)
    requires Decode(text).Some?
    ensures |text| % 4 == 0
  {
    hide DecodeQuantum;
    if |text| >= 4 {
      var rest := text[4..];
      DecodableLength(rest);
      assert |text| == |rest| + 4;
    }
  }

  /** Whenever there is more than one slice, reassembly works exactly for the multiples of four. */
  lemma SliceSizeMatters(data: seq<Byte>, size: nat)
    requires 0 < size < |Encode(data)|
    ensures DecodeSlices(Encode(data), size) == Some(data) <==> size % 4 == 0
  {
    hide Encode, Decode;
    if size % 4 == 0 {
      SlicesReassemble(data, size);
    } else if DecodeSlices(Encode(data), size).Some? {
      DecodableLength(Encode(data)[..size]);
      assert false;
    }
  }

  // ---- The remote host ----

  /** How one remote command ends: done, not carried out, or carried out with its reply lost. */
  datatype Outcome = Done | Refused | ReplyLost

  /** What a slice is echoed as: the command's only argument and the newline `echo` adds. */
  function Echoed(command: string): Option<string> {
    match Quoting.Words(command)
    case Some(words) => if |words| == 2 && words[0] == "echo" then Some(words[1] + "\n") else None
    case None => None
  }

  /** `base64 -d` skips newlines. */
  function WithoutNewlines(text: string): string {
    Quoting.ReplaceAll(text, '\n', "")
  }

  function EchoDecoded(command: string): Option<seq<Byte>> {
    match Echoed(command)
    case Some(text) => Decode(WithoutNewlines(text))
    case None => None
  }

  ghost predicate InAlphabet(text: string) {
    forall c | c in text :: c == '=' || CharDigit(c).Some?
  }

  lemma QuantumInAlphabet(a: Byte, b: Byte, c: Byte)
    ensures InAlphabet(Quantum(a, b, c))
  {
    hide DigitChar, CharDigit;
    DigitRoundTrip(a / 4);
    DigitRoundTrip(a % 4 * 16 + b / 16);
    DigitRoundTrip(b % 16 * 4 + c / 64);
    DigitRoundTrip(c % 64);
  }

  lemma PaddingInAlphabet()
    ensures InAlphabet("") && InAlphabet("=") && InAlphabet("==")
  {
  }

  lemma BothInAlphabet(s: string, t: string)
    requires InAlphabet(s) && InAlphabet(t)
    ensures InAlphabet(s + t)
  {
    hide CharDigit;
  }

  lemma PartInAlphabet(s: string, from: nat, to: nat)
    requires from <= to <= |s| && InAlphabet(s)
    ensures InAlphabet(s[from..to]) && InAlphabet(s[..to])
  {
    hide CharDigit;
  }

  lemma {:induction false} EncodeInAlphabet(data: seq<Byte>)
    ensures InAlphabet(Encode(data))
  {
    hide Quantum, InAlphabet;
    if data != [] {
      var a, b, c := data[0], if |data| > 1 then data[1] else 0, if |data| > 2 then data[2] else 0;
      QuantumInAlphabet(a, b, c);
      if |data| >= 3 {
        EncodeInAlphabet(data[3..]);
        BothInAlphabet(Quantum(a, b, c), Encode(data[3..]));
      } else {
        PaddingInAlphabet();
        PartInAlphabet(Quantum(a, b, c), 0, |data| + 1);
        BothInAlphabet(Quantum(a, b, c)[..|data| + 1], if |data| == 1 then "==" else "=");
      }
    } else {
      PaddingInAlphabet();
    }
  }

  /** Base64 text needs no escaping inside single quotes, so the decoder sees the slice unchanged. */
  lemma EchoedSlice(slice: string)
    requires InAlphabet(slice)
    ensures EchoDecoded("echo '" + slice + "'") == Decode(slice)
  {
    forall c | c in slice ensures c != '\'' && c != '\n' {
    }
    NothingToReplace(slice, '\'', "'\"'\"'");
    var quoted := Quoting.ShellQuote(slice);
    assert "echo '" + slice + "'" == "echo" + " " + quoted;
    assert Quoting.Words("echo" + " " + quoted) == Some(["echo", slice]) by {
      Quoting.PlainFirst("echo", quoted);
      Quoting.ShellQuoteRoundTrip(slice);
      assert ["echo"] + [slice] == ["echo", slice];
    }
    NothingToReplace(slice, '\n', "");
    ReplaceAllLast(slice, "\n", '\n', "");
    assert Quoting.ReplaceAll("\n", '\n', "") == "";
    assert slice + "" == slice;
  }

  lemma {:induction false} NothingToReplace(s: string, c: char, replacement: string)
    requires c !in s
    ensures Quoting.ReplaceAll(s, c, replacement) == s
  {
    if s != "" {
      NothingToReplace(s[1..], c, replacement);
    }
  }

  lemma {:induction false} ReplaceAllLast(s: string, t: string, c: char, replacement: string)
    ensures Quoting.ReplaceAll(s + t, c, replacement) == Quoting.ReplaceAll(s, c, replacement) + Quoting.ReplaceAll(t, c, replacement)
  {
    if s == "" {
      assert s + t == t;
    } else {
      assert (s + t)[1..] == s[1..] + t;
      ReplaceAllLast(s[1..], t, c, replacement);
    }
  }

  class RemoteHost {
    /** The target file; None while it does not exist. */
    var file: Option<seq<Byte>>

    constructor (file: Option<seq<Byte>>)
      ensures this.file == file
    {
      this.file := file;
    }

    function Content(): seq<Byte>
      reads this
    {
      if file.Some? then file.value else []
    }

    /** `rm -f file` */
    method Remove(outcome: Outcome) returns (ok: bool)
      modifies this
      ensures ok == outcome.Done?
      ensures file == if outcome.Refused? then old(file) else None
    {
      if !outcome.Refused? {
        file := None;
      }
      ok := outcome.Done?;
    }

    /** `command | base64 -d >> file`: the file comes to exist even when nothing can be decoded. */
    method AppendDecoded(command: string, outcome: Outcome) returns (ok: bool)
      modifies this
      ensures outcome.Refused? ==> file == old(file)
      ensures !outcome.Refused? ==>
          file == Some(old(Content()) + (if EchoDecoded(command).Some? then EchoDecoded(command).value else []))
      ensures ok == (outcome.Done? && EchoDecoded(command).Some?)
    {
      var decoded := EchoDecoded(command);
      if !outcome.Refused? {
        file := Some(Content() + (if decoded.Some? then decoded.value else []));
      }
      ok := outcome.Done? && decoded.Some?;
    }
  }

  const CHUNK_SIZE: nat := 100 * 1024

  /** The number of commands sent when nothing fails: the removal and one per slice. */
  function Commands(data: seq<Byte>): nat {
    1 + (|Encode(data)| + CHUNK_SIZE - 1) / CHUNK_SIZE
  }

  /** How much of the data the first n characters of its encoding stand for. */
  function Covered(data: seq<Byte>, n: nat): nat {
    Min(n / 4 * 3, |data|)
  }

  lemma SliceCount(data: seq<Byte>, sent: nat)
    ensures sent * CHUNK_SIZE / CHUNK_SIZE == sent && (sent + 1) * CHUNK_SIZE == sent * CHUNK_SIZE + CHUNK_SIZE
    ensures sent * CHUNK_SIZE < |Encode(data)| <==> sent + 1 < Commands(data)
  {
    hide Encode;
  }

  lemma SliceOfData(data: seq<Byte>, sent: nat, end: nat)
    requires sent * CHUNK_SIZE < |Encode(data)|
    requires end == Min(sent * CHUNK_SIZE + CHUNK_SIZE, |Encode(data)|)
    ensures var i := sent * CHUNK_SIZE;
            && Covered(data, i) <= Covered(data, i + CHUNK_SIZE)
            && Decode(Encode(data)[i..end]) == Some(data[Covered(data, i)..Covered(data, i + CHUNK_SIZE)])
            && InAlphabet(Encode(data)[i..end])
  {
    hide Encode, Decode, InAlphabet;
    var i, text := sent * CHUNK_SIZE, Encode(data);
    var k := sent * 25600;
    assert i == 4 * k && 3 * k < |data|;
    EncodeInAlphabet(data);
    PartInAlphabet(text, i, end);
    EncodeCut(data, k);
    var rest := data[3 * k..];
    assert i / 4 == k && (i + CHUNK_SIZE) / 4 == k + 25600;
    assert Covered(data, i) == 3 * k && Covered(data, i + CHUNK_SIZE) == Min(3 * (k + 25600), |data|);
    if end == |text| {
      assert text[i..end] == text[i..];
      DecodeEncode(rest);
      assert Covered(data, i + CHUNK_SIZE) == |data|;
      assert rest == data[Covered(data, i)..Covered(data, i + CHUNK_SIZE)];
    } else {
      assert 3 * 25600 <= |rest|;
      EncodeCut(rest, 25600);
      assert text[i..end] == text[4 * k..][..4 * 25600];
      DecodeEncode(rest[..3 * 25600]);
      assert Covered(data, i + CHUNK_SIZE) == 3 * k + 3 * 25600;
      assert rest[..3 * 25600] == data[Covered(data, i)..Covered(data, i + CHUNK_SIZE)];
    }
  }

  lemma UploadArithmetic(data: seq<Byte>)
    ensures Covered(data, 0) == 0 && forall n: nat | n >= |Encode(data)| :: Covered(data, n) == |data|
    ensures forall n: nat :: Covered(data, n) <= |data|
    ensures Commands(data) >= 1 && (data == [] <==> |Encode(data)| == 0)
  {
    hide Encode;
  }

  /** Uploads `data`; `outcomes` says how each command in turn would end. The upload succeeds exactly when every
      command does, and then the file is the data (no file at all for empty data); whenever it stops, the file is
      the old one, or missing, or a prefix of the data. */
  method UploadFile(host: RemoteHost, data: seq<Byte>, outcomes: nat -> Outcome) returns (ok: bool)
    modifies host
    ensures ok <==> forall k: nat | k < Commands(data) :: outcomes(k) == Done
    ensures ok ==> host.file == if data == [] then None else Some(data)
    ensures host.file == old(host.file) || host.file == None || host.file.value <= data
  {
    hide Encode, Decode, EchoDecoded, InAlphabet, Covered, Commands;
    UploadArithmetic(data);
    SliceCount(data, 0);
    var encoded := Encode(data);
    ok := host.Remove(outcomes(0));
    if !ok { return; }
    var i := 0;
    ghost var sent: nat := 0;
    while i < |encoded|
      invariant i == sent * CHUNK_SIZE && sent <= Commands(data) - 1
      invariant forall k: nat | k <= sent :: outcomes(k) == Done
      invariant host.file == if i == 0 then None else Some(data[..Covered(data, i)])
    {
      var end := i + CHUNK_SIZE;
      if end > |encoded| {
        end := |encoded|;
      }
      SliceCount(data, sent);
      SliceCount(data, sent + 1);
      SliceOfData(data, sent, end);
      EchoedSlice(encoded[i..end]);
      ghost var before, after := Covered(data, i), Covered(data, i + CHUNK_SIZE);
      assert data[..before] + data[before..after] == data[..after];
      var chunkNum := i / CHUNK_SIZE + 1;
      ok := host.AppendDecoded("echo '" + encoded[i..end] + "'", outcomes(chunkNum));
      if !ok { return; }
      i := i + CHUNK_SIZE;
      sent := sent + 1;
    }
    SliceCount(data, sent);
    assert data[..|data|] == data;
  }
}
