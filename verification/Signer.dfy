/** Compact JWS tokens: src/crypto/signer.ts. Base64 is RFC 4648 section 4, its URL form section 5. */
module Signer {
  import opened Text

  type byte = x: int | 0 <= x < 256

  /** The base64 alphabet, and its reading. */
  function Char64(i: nat): char
    requires i < 64
  {
    if i < 26 then 'A' + i as char
    else if i < 52 then 'a' + (i - 26) as char
    else if i < 62 then '0' + (i - 52) as char
    else if i == 62 then '+' else '/'
  }

  function Index64(c: char): (r: Option<nat>)
    ensures r.Some? ==> r.value < 64
  {
    if 'A' <= c <= 'Z' then Some(c as int - 'A' as int)
    else if 'a' <= c <= 'z' then Some(c as int - 'a' as int + 26)
    else if '0' <= c <= '9' then Some(c as int - '0' as int + 52)
    else if c == '+' then Some(62)
    else if c == '/' then Some(63)
    else None
  }

  /** The text of three bytes, and of the one or two bytes that may be left at the end. */
  function Quad(a: byte, b: byte, c: byte): (q: string)
    ensures |q| == 4
  {
    [Char64(a / 4), Char64(a % 4 * 16 + b / 16), Char64(b % 16 * 4 + c / 64), Char64(c % 64)]
  }

  function Pair(a: byte, b: byte): (q: string)
    ensures |q| == 4
  {
    [Char64(a / 4), Char64(a % 4 * 16 + b / 16), Char64(b % 16 * 4), '=']
  }

  function Single(a: byte): (q: string)
    ensures |q| == 4
  {
    [Char64(a / 4), Char64(a % 4 * 16), '=', '=']
  }

  /** `buf.toString("base64")`, padded. */
  function Base64(x: seq<byte>): string {
    if |x| == 0 then ""
    else if |x| == 1 then Single(x[0])
    else if |x| == 2 then Pair(x[0], x[1])
    else Quad(x[0], x[1], x[2]) + Base64(x[3..])
  }

  function DecodeQuad(q: string): Option<seq<byte>>
    requires |q| == 4
  {
    var (a, b, c, d) := (Index64(q[0]), Index64(q[1]), Index64(q[2]), Index64(q[3]));
    if a.Some? && b.Some? && c.Some? && d.Some?
    then Some([a.value * 4 + b.value / 16, b.value % 16 * 16 + c.value / 4, c.value % 4 * 64 + d.value])
    else None
  }

  /** A last group: padded groups carry zero bits after their last byte. */
  function DecodeLast(q: string): Option<seq<byte>>
    requires |q| == 4
  {
    var (a, b, c) := (Index64(q[0]), Index64(q[1]), Index64(q[2]));
    if q[3] != '=' then DecodeQuad(q)
    else if a.None? || b.None? then None
    else if q[2] == '=' then
      if b.value % 16 == 0 then Some([a.value * 4 + b.value / 16]) else None
    else if c.Some? && c.value % 4 == 0 then Some([a.value * 4 + b.value / 16, b.value % 16 * 16 + c.value / 4])
    else None
  }

  /** The bytes of padded base64 text; None where RFC 4648 gives the text no meaning. */
  function DecodeBase64(s: string): Option<seq<byte>> {
    if s == "" then Some([])
    else if |s| < 4 then None
    else if |s| == 4 then DecodeLast(s)
    else
      match (DecodeQuad(s[..4]), DecodeBase64(s[4..]))
      case (Some(group), Some(rest)) => Some(group + rest)
      case _ => None
  }

  function ToUrl(s: string): (t: string)
    ensures |t| == |s|
  {
    seq(|s|, i requires 0 <= i < |s| => if s[i] == '+' then '-' else if s[i] == '/' then '_' else s[i])
  }

  function FromUrl(s: string): (t: string)
    ensures |t| == |s|
  {
    seq(|s|, i requires 0 <= i < |s| => if s[i] == '-' then '+' else if s[i] == '_' then '/' else s[i])
  }

  /** `replace(/=+$/g, "")`. */
  function StripPadding(s: string): string {
    if s != "" && s[|s| - 1] == '=' then StripPadding(s[..|s| - 1]) else s
  }

  function Equals(n: nat): (s: string)
    ensures |s| == n
  {
    seq(n, _ => '=')
  }

  function B64Url(buf: seq<byte>): string {
    StripPadding(ToUrl(Base64(buf)))
  }

  /** The text `b64urlToBuf` hands to the base64 decoder. */
  function Restore(s: string): string {
    FromUrl(s) + Equals((4 - |s| % 4) % 4)
  }

  method RestoreBase64(text: string) returns (s: string)
    ensures s == Restore(text)
  {
    s := FromUrl(text);
    while |s| % 4 != 0
      invariant |text| <= |s| <= |text| + (4 - |text| % 4) % 4
      invariant s == FromUrl(text) + Equals(|s| - |text|)
      decreases |text| + (4 - |text| % 4) % 4 - |s|
    {
      assert Equals(|s| - |text|) + "=" == Equals(|s| + 1 - |text|);
      s := s + "=";
    }
  }

  /**
   * What the token code takes from its platform. `bufferFrom` is Node's lenient base64 decoder, `utf8` its
   * text encoder, `alg` reads the header's algorithm; `sign` and `verify` are Ed25519 under one key pair.
   */
  datatype Suite<!J> = Suite(
    stringify: J -> seq<byte>,
    parse: seq<byte> -> Option<J>,
    utf8: string -> seq<byte>,
    bufferFrom: string -> seq<byte>,
    sign: seq<byte> -> seq<byte>,
    verify: (seq<byte>, seq<byte>) -> bool,
    header: J,
    alg: J -> string
  )

  /** JSON text reads back, well-formed base64 decodes to its meaning, and a signature verifies. */
  ghost predicate Correct<J(!new)>(s: Suite<J>) {
    && (forall j: J :: s.parse(s.stringify(j)) == Some(j))
    && (forall t: string :: DecodeBase64(t).Some? ==> s.bufferFrom(t) == DecodeBase64(t).value)
    && (forall m: seq<byte> :: s.verify(m, s.sign(m)))
    && s.alg(s.header) == "EdDSA"
  }

  datatype Verdict<J> = Valid(header: J, payload: J) | Invalid(reason: string)

  function SigningInput<J>(s: Suite<J>, payload: J): string {
    B64Url(s.stringify(s.header)) + "." + B64Url(s.stringify(payload))
  }

  function SignJws<J>(s: Suite<J>, payload: J): string {
    var m := SigningInput(s, payload);
    m + "." + B64Url(s.sign(s.utf8(m)))
  }

  function VerifyJws<J>(s: Suite<J>, jws: string): Verdict<J> {
    var parts := Split(jws, '.');
    if |parts| != 3 then Invalid("invalid_format")
    else
      match s.parse(s.bufferFrom(Restore(parts[0])))
      case None => Invalid("verify_error")
      case Some(header) =>
        if s.alg(header) != "EdDSA" then Invalid("alg_mismatch")
        else if !s.verify(s.utf8(parts[0] + "." + parts[1]), s.bufferFrom(Restore(parts[2]))) then Invalid("bad_signature")
        else
          match s.parse(s.bufferFrom(Restore(parts[1])))
          case None => Invalid("verify_error")
          case Some(payload) => Valid(header, payload)
  }

  lemma IndexOfChar(i: nat)
    requires i < 64
    ensures Index64(Char64(i)) == Some(i)
    ensures var c := Char64(i); c != '=' && c != '-' && c != '_' && c != '.'
  {
  }

  /** Splitting bytes into sextets and joining them again. */
  lemma Sextets(a: byte, b: byte, c: byte)
    ensures a / 4 < 64 && a % 4 * 16 + b / 16 < 64 && b % 16 * 4 + c / 64 < 64 && c % 64 < 64
    ensures a / 4 * 4 + (a % 4 * 16 + b / 16) / 16 == a
    ensures (a % 4 * 16 + b / 16) % 16 * 16 + (b % 16 * 4 + c / 64) / 4 == b
    ensures (b % 16 * 4 + c / 64) % 4 * 64 + c % 64 == c
  {
  }

  lemma QuadReads(a: byte, b: byte, c: byte)
    ensures DecodeQuad(Quad(a, b, c)) == Some([a, b, c]) && Quad(a, b, c)[3] != '='
  {
    Sextets(a, b, c);
    var (i, j, k, l) := (a / 4, a % 4 * 16 + b / 16, b % 16 * 4 + c / 64, c % 64);
    IndexOfChar(i);
    IndexOfChar(j);
    IndexOfChar(k);
    IndexOfChar(l);
  }

  lemma SingleReads(a: byte)
    ensures DecodeLast(Single(a)) == Some([a])
  {
    Sextets(a, 0, 0);
    var (i, j) := (a / 4, a % 4 * 16);
    IndexOfChar(i);
    IndexOfChar(j);
  }

  lemma PairReads(a: byte, b: byte)
    ensures DecodeLast(Pair(a, b)) == Some([a, b])
  {
    Sextets(a, b, 0);
    var (i, j, k) := (a / 4, a % 4 * 16 + b / 16, b % 16 * 4);
    IndexOfChar(i);
    IndexOfChar(j);
    IndexOfChar(k);
  }

  /** Decoding base64 text gives back the bytes it was made from. */
  lemma {:induction false} Base64RoundTrip(x: seq<byte>)
    ensures DecodeBase64(Base64(x)) == Some(x)
  {
    if |x| >= 3 {
      QuadReads(x[0], x[1], x[2]);
      Base64RoundTrip(x[3..]);
      DecodeGroup(Quad(x[0], x[1], x[2]), Base64(x[3..]));
      assert x == [x[0], x[1], x[2]] + x[3..];
    } else {
      TailRoundTrip(x);
    }
  }

  lemma TailRoundTrip(x: seq<byte>)
    requires |x| < 3
    ensures DecodeBase64(Base64(x)) == Some(x)
  {
    if |x| == 1 {
      OneByte(x[0], x);
    } else if |x| == 2 {
      TwoBytes(x[0], x[1], x);
    }
  }

  lemma OneByte(a: byte, x: seq<byte>)
    requires x == [a]
    ensures DecodeBase64(Base64(x)) == Some(x)
  {
    SingleReads(a);
  }

  lemma TwoBytes(a: byte, b: byte, x: seq<byte>)
    requires x == [a, b]
    ensures DecodeBase64(Base64(x)) == Some(x)
  {
    PairReads(a, b);
  }

  lemma DecodeGroup(q: string, rest: string)
    requires |q| == 4 && q[3] != '=' && DecodeQuad(q).Some? && DecodeBase64(rest).Some?
    ensures DecodeBase64(q + rest) == Some(DecodeQuad(q).value + DecodeBase64(rest).value)
  {
    var s := q + rest;
    assert s[..4] == q && s[4..] == rest;
    if rest == "" {
      assert s == q;
      assert DecodeQuad(q).value + [] == DecodeQuad(q).value;
    }
  }

  predicate AllAlphabet(s: string) { forall i :: 0 <= i < |s| ==> Index64(s[i]).Some? }

  /** Base64 text is alphabet characters followed by the padding that brings it to a multiple of four. */
  lemma {:induction false} Base64Shape(x: seq<byte>) returns (body: string, pad: nat, groups: nat)
    ensures AllAlphabet(body) && pad < 4 && |body| + pad == 4 * groups
    ensures Base64(x) == body + Equals(pad)
  {
    if |x| == 0 {
      body, pad, groups := "", 0, 0;
    } else if |x| == 1 {
      pad, groups := 2, 1;
      body := SingleShape(x[0]);
    } else if |x| == 2 {
      pad, groups := 1, 1;
      body := PairShape(x[0], x[1]);
    } else {
      var rest;
      rest, pad, groups := Base64Shape(x[3..]);
      groups := groups + 1;
      var q := QuadShape(x[0], x[1], x[2]);
      body := q + rest;
      assert q + (rest + Equals(pad)) == body + Equals(pad);
    }
  }

  lemma QuadShape(a: byte, b: byte, c: byte) returns (q: string)
    ensures q == Quad(a, b, c) && AllAlphabet(q)
  {
    q := Quad(a, b, c);
    QuadReads(a, b, c);
  }

  lemma SingleShape(a: byte) returns (body: string)
    ensures |body| == 2 && AllAlphabet(body) && Single(a) == body + Equals(2)
  {
    Sextets(a, 0, 0);
    var (i, j) := (a / 4, a % 4 * 16);
    IndexOfChar(i);
    IndexOfChar(j);
    body := [Char64(i), Char64(j)];
  }

  lemma PairShape(a: byte, b: byte) returns (body: string)
    ensures |body| == 3 && AllAlphabet(body) && Pair(a, b) == body + Equals(1)
  {
    Sextets(a, b, 0);
    var (i, j, k) := (a / 4, a % 4 * 16 + b / 16, b % 16 * 4);
    IndexOfChar(i);
    IndexOfChar(j);
    IndexOfChar(k);
    body := [Char64(i), Char64(j), Char64(k)];
  }

  lemma {:induction false} StripEquals(body: string, n: nat)
    requires body == "" || body[|body| - 1] != '='
    ensures StripPadding(body + Equals(n)) == body
  {
    if n == 0 {
      assert body + Equals(0) == body;
    } else {
      var s := body + Equals(n);
      assert s[..|s| - 1] == body + Equals(n - 1);
      StripEquals(body, n - 1);
    }
  }

  lemma UrlForm(body: string)
    requires AllAlphabet(body)
    ensures FromUrl(ToUrl(body)) == body
    ensures forall c :: c in ToUrl(body) ==> c != '.' && c != '=' && c != '+' && c != '/'
  {
    var u := ToUrl(body);
    forall i | 0 <= i < |u| ensures u[i] != '.' && u[i] != '=' && u[i] != '+' && u[i] != '/' {
      assert Index64(body[i]).Some?;
    }
  }

  /** Dropping and restoring the padding of a body. */
  lemma BodyRestored(body: string, pad: nat, groups: nat)
    requires AllAlphabet(body) && pad < 4 && |body| + pad == 4 * groups
    ensures StripPadding(ToUrl(body + Equals(pad))) == ToUrl(body) && Restore(ToUrl(body)) == body + Equals(pad)
  {
    hide AllAlphabet, StripPadding;
    assert ToUrl(body + Equals(pad)) == ToUrl(body) + Equals(pad);
    UrlForm(body);
    LastIsNoPadding(body);
    StripEquals(ToUrl(body), pad);
    PadLength(|body|, pad, groups);
  }

  lemma LastIsNoPadding(body: string)
    requires AllAlphabet(body)
    ensures var u := ToUrl(body); u == "" || u[|u| - 1] != '='
  {
    var u := ToUrl(body);
    UrlForm(body);
    if u != "" { assert u[|u| - 1] in u; }
  }

  /** The URL form drops exactly the padding, and restoring it gives back the padded base64 text. */
  lemma PaddingRestored(x: seq<byte>)
    ensures Restore(B64Url(x)) == Base64(x)
    ensures forall c :: c in B64Url(x) ==> c != '.' && c != '=' && c != '+' && c != '/'
  {
    hide AllAlphabet, StripPadding, Base64, ToUrl, Restore;
    var body, pad, groups := Base64Shape(x);
    BodyRestored(body, pad, groups);
    UrlForm(body);
  }

  lemma PadLength(n: nat, pad: nat, groups: nat)
    requires pad < 4 && n + pad == 4 * groups
    ensures (4 - n % 4) % 4 == pad
  {
  }

  /** `b64urlToBuf(b64url(x))` is x, for every byte string. */
  lemma UrlRoundTrip<J>(s: Suite<J>, x: seq<byte>)
    requires forall t: string :: DecodeBase64(t).Some? ==> s.bufferFrom(t) == DecodeBase64(t).value
    ensures s.bufferFrom(Restore(B64Url(x))) == x
  {
    PaddingRestored(x);
    Base64RoundTrip(x);
  }

  /** A token splits into exactly its three parts. */
  lemma TokenParts(h: string, p: string, g: string)
    requires '.' !in h && '.' !in p && '.' !in g
    ensures Split(h + "." + p + "." + g, '.') == [h, p, g]
  {
    assert h + "." + p + "." + g == h + ['.'] + (p + ['.'] + g);
    SplitFirst(h, '.', p + ['.'] + g);
    SplitFirst(p, '.', g);
    SplitWhole(g, '.');
  }

  /** Every token the service signs verifies, with the payload it was given. */
  lemma SignedTokenVerifies<J(!new)>(s: Suite<J>, payload: J)
    requires Correct(s)
    ensures VerifyJws(s, SignJws(s, payload)) == Valid(s.header, payload)
  {
    var h, p := B64Url(s.stringify(s.header)), B64Url(s.stringify(payload));
    var g := s.sign(s.utf8(h + "." + p));
    PaddingRestored(s.stringify(s.header));
    PaddingRestored(s.stringify(payload));
    PaddingRestored(g);
    TokenParts(h, p, B64Url(g));
    UrlRoundTrip(s, s.stringify(s.header));
    UrlRoundTrip(s, s.stringify(payload));
    UrlRoundTrip(s, g);
  }

  /** A token in three dot-free parts. */
  predicate IsToken(jws: string, h: string, p: string, g: string) {
    '.' !in h && '.' !in p && '.' !in g && jws == h + "." + p + "." + g
  }

  /** The signature in g is good for the text h.p. */
  predicate GoodSignature<J>(s: Suite<J>, h: string, p: string, g: string) {
    s.verify(s.utf8(h + "." + p), s.bufferFrom(Restore(g)))
  }

  /** The JSON value a part of a token carries. */
  function Carries<J>(s: Suite<J>, part: string): Option<J> { s.parse(s.bufferFrom(Restore(part))) }

  /**
   * What verification answers, exactly: the header and payload of a token in three parts whose header says "EdDSA" and
   * whose signature is good for its first two; the format error for a text that is no such token; the algorithm's before
   * the signature's.
   */
  lemma VerdictIff<J>(s: Suite<J>, jws: string, header: J, payload: J)
    ensures VerifyJws(s, jws) == Valid(header, payload) <==>
              exists h, p, g :: IsToken(jws, h, p, g) && GoodSignature(s, h, p, g)
                                && Carries(s, h) == Some(header) && s.alg(header) == "EdDSA" && Carries(s, p) == Some(payload)
    ensures VerifyJws(s, jws) == Invalid("invalid_format") <==> forall h, p, g :: !IsToken(jws, h, p, g)
    ensures forall h, p, g :: IsToken(jws, h, p, g) && Carries(s, h) == Some(header) && s.alg(header) != "EdDSA" ==>
              VerifyJws(s, jws) == Invalid("alg_mismatch")
    ensures forall h, p, g | IsToken(jws, h, p, g) && Carries(s, h) == Some(header) && s.alg(header) == "EdDSA" ::
              !GoodSignature(s, h, p, g) ==> VerifyJws(s, jws) == Invalid("bad_signature")
  {
    ReasonsDiffer();
    var parts := Split(jws, '.');
    forall h, p, g | IsToken(jws, h, p, g) ensures parts == [h, p, g] { TokenParts(h, p, g); }
    if |parts| == 3 {
      SplitIsToken(jws);
      assert IsToken(jws, parts[0], parts[1], parts[2]);
    }
  }

  lemma ReasonsDiffer()
    ensures |"invalid_format"| == 14 && |"alg_mismatch"| == 12 && |"bad_signature"| == 13 && |"verify_error"| == 12
    ensures "alg_mismatch"[0] == 'a' && "verify_error"[0] == 'v'
  {
  }

  lemma SplitIsToken(jws: string)
    requires |Split(jws, '.')| == 3
    ensures var parts := Split(jws, '.'); IsToken(jws, parts[0], parts[1], parts[2])
  {
    var parts := Split(jws, '.');
    SplitParts(jws, '.');
    JoinSplit(jws, '.');
    var h, p, g := parts[0], parts[1], parts[2];
    assert parts[1..] == [p, g] && parts[1..][1..] == [g];
    assert Join(parts[1..], '.') == p + "." + Join(parts[1..][1..], '.');
    assert jws == h + "." + (p + "." + g);
  }

  /** The text handed to the base64 decoder: '-' and '_' replaced, and padded to a multiple of four by at most three '='. */
  lemma RestoreForm(s: string)
    ensures var r := Restore(s);
            && |r| % 4 == 0 && |s| <= |r| <= |s| + 3
            && (forall i :: 0 <= i < |s| ==> r[i] == if s[i] == '-' then '+' else if s[i] == '_' then '/' else s[i])
            && (forall i :: |s| <= i < |r| ==> r[i] == '=')
  {
  }

  /** The vectors of RFC 4648 section 10. */
  lemma Rfc4648Vectors()
    ensures Base64([]) == "" && Base64([102]) == "Zg==" && Base64([102, 111]) == "Zm8=" && Base64([102, 111, 111]) == "Zm9v"
    ensures Base64([102, 111, 111, 98]) == "Zm9vYg==" && Base64([102, 111, 111, 98, 97]) == "Zm9vYmE="
    ensures Base64([102, 111, 111, 98, 97, 114]) == "Zm9vYmFy"
  {
    hide Base64;
    FirstVectors();
    LastVectors();
    FooThen([], [102, 111, 111]);
    FooThen([98], [102, 111, 111, 98]);
    FooThen([98, 97], [102, 111, 111, 98, 97]);
    FooThen([98, 97, 114], [102, 111, 111, 98, 97, 114]);
  }

  lemma FirstVectors()
    ensures Base64([]) == "" && Base64([102]) == "Zg==" && Base64([102, 111]) == "Zm8="
  {
  }

  lemma LastVectors()
    ensures Base64([98]) == "Yg==" && Base64([98, 97]) == "YmE=" && Base64([98, 97, 114]) == "YmFy"
  {
    var x: seq<byte> := [98, 97, 114];
    assert x[3..] == [];
  }

  lemma FooThen(x: seq<byte>, foo: seq<byte>)
    requires foo == [102, 111, 111] + x
    ensures Base64(foo) == "Zm9v" + Base64(x)
  {
    assert foo[3..] == x;
  }

  /** A byte string whose text uses both characters that section 5 replaces. */
  lemma UrlVector()
    ensures B64Url([251, 255]) == "-_8"
  {
    var t := ToUrl(Base64([251, 255]));
    assert Base64([251, 255]) == "+/8=";
    assert t == "-_8=" && t[..3] == "-_8";
  }

  /** Only what was signed is believed: an accepted token is its signing input, a dot and a good signature. */
  lemma AcceptedTokenIsSigned<J>(s: Suite<J>, jws: string)
    requires VerifyJws(s, jws).Valid?
    ensures exists h, p, g :: IsToken(jws, h, p, g) && GoodSignature(s, h, p, g)
                           && Carries(s, p) == Some(VerifyJws(s, jws).payload)
  {
    VerdictIff(s, jws, VerifyJws(s, jws).header, VerifyJws(s, jws).payload);
  }
}
