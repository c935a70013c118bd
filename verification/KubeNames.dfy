/** Normalizing names for Kubernetes and parsing pod names (internal/kube/kube.go). */
module KubeNames {
  import opened Text

  /** A Go string is bytes; the regular expressions and `ToLower` work on its runes. */
  type Byte = b: int | 0 <= b < 256
  type Rune = r: int | 0 <= r < 0x110000

  const RUNE_ERROR: Rune := 0xFFFD

  // ---- Decoding ----

  predicate Continuation(b: Byte) {
    0x80 <= b <= 0xBF
  }

  /** The first rune of a non-empty byte string and its width, as `utf8.DecodeRune`: an invalid
      byte reads as the replacement rune of width one. */
  function DecodeRune(s: seq<Byte>): (r: (Rune, nat))
    requires s != []
    ensures 1 <= r.1 <= |s|
    ensures s[0] < 0x80 ==> r == (s[0], 1)
    ensures s[0] >= 0x80 ==> r.0 >= 0x80
  {
    var b := s[0];
    if b < 0x80 then (b, 1)
    else if 0xC2 <= b <= 0xDF && |s| >= 2 && Continuation(s[1]) then
      ((b as int - 0xC0) * 0x40 + (s[1] as int - 0x80), 2)
    else if 0xE0 <= b <= 0xEF && |s| >= 3 && Continuation(s[1]) && Continuation(s[2])
         && (b == 0xE0 ==> s[1] >= 0xA0) && (b == 0xED ==> s[1] <= 0x9F) then
      ((b as int - 0xE0) * 0x1000 + (s[1] as int - 0x80) * 0x40 + (s[2] as int - 0x80), 3)
    else if 0xF0 <= b <= 0xF4 && |s| >= 4 && Continuation(s[1]) && Continuation(s[2]) && Continuation(s[3])
         && (b == 0xF0 ==> s[1] >= 0x90) && (b == 0xF4 ==> s[1] <= 0x8F) then
      ((b as int - 0xF0) * 0x40000 + (s[1] as int - 0x80) * 0x1000 + (s[2] as int - 0x80) * 0x40 + (s[3] as int - 0x80), 4)
    else (RUNE_ERROR, 1)
  }

  function Runes(s: seq<Byte>): (rs: seq<Rune>)
    ensures |rs| <= |s|
    decreases |s|
  {
    if s == [] then [] else [DecodeRune(s).0] + Runes(s[DecodeRune(s).1..])
  }

  // ---- Decoding undoes encoding ----

  /** A Unicode scalar value. */
  predicate Scalar(r: Rune) {
    !(0xD800 <= r <= 0xDFFF)
  }

  /** UTF-8, section 3 of RFC 3629. */
  function Encode(r: Rune): (s: seq<Byte>)
    ensures 1 <= |s| <= 4
  {
    if r < 0x80 then [r]
    else if r < 0x800 then [0xC0 + r / 0x40, 0x80 + r % 0x40]
    else if r < 0x10000 then [0xE0 + r / 0x1000, 0x80 + r / 0x40 % 0x40, 0x80 + r % 0x40]
    else [0xF0 + r / 0x40000, 0x80 + r / 0x1000 % 0x40, 0x80 + r / 0x40 % 0x40, 0x80 + r % 0x40]
  }

  /** The digits to base 64 that an encoding holds. */
  lemma BaseSixtyFour(r: nat)
    ensures r == r / 0x40 * 0x40 + r % 0x40
    ensures r == r / 0x1000 * 0x1000 + r / 0x40 % 0x40 * 0x40 + r % 0x40
    ensures r == r / 0x40000 * 0x40000 + r / 0x1000 % 0x40 * 0x1000 + r / 0x40 % 0x40 * 0x40 + r % 0x40
  {
    assert r / 0x40 / 0x40 == r / 0x1000 && r / 0x1000 / 0x40 == r / 0x40000;
  }

  lemma DigitsDetermine(a: nat, b: nat, c: nat, d: nat)
    requires b < 0x40 && c < 0x40 && d < 0x40
    ensures var r := a * 0x40000 + b * 0x1000 + c * 0x40 + d;
      r / 0x40000 == a && r / 0x1000 % 0x40 == b && r / 0x40 % 0x40 == c && r % 0x40 == d
  {
    LastDigit(a * 0x1000 + b * 0x40 + c, d);
    LastDigit(a * 0x40 + b, c);
    LastDigit(a, b);
  }

  lemma LastDigit(x: nat, d: nat)
    requires d < 0x40
    ensures (x * 0x40 + d) / 0x40 == x && (x * 0x40 + d) % 0x40 == d
    ensures (x * 0x40 + d) / 0x1000 == x / 0x40 && (x * 0x40 + d) / 0x40000 == x / 0x1000
  {
  }

  /** Where the encoding of a rune stands, that rune is read. */
  lemma DecodesEncoding(s: seq<Byte>, r: Rune)
    requires Scalar(r) && |Encode(r)| <= |s| && s[..|Encode(r)|] == Encode(r)
    ensures s != [] && DecodeRune(s) == (r, |Encode(r)|)
  {
    var n := |Encode(r)|;
    BaseSixtyFour(r);
    assert s[0] == s[..n][0];
    assert n > 1 ==> s[1] == s[..n][1];
    assert n > 2 ==> s[2] == s[..n][2];
    assert n > 3 ==> s[3] == s[..n][3];
  }

  /** What is read is the encoding of the rune, or a single byte that reads as the replacement rune. */
  lemma DecodedIsEncoding(s: seq<Byte>)
    requires s != []
    ensures var (r, n) := DecodeRune(s);
      (Scalar(r) && s[..n] == Encode(r)) || (r == RUNE_ERROR && n == 1)
  {
    var (r, n) := DecodeRune(s);
    assert s[..1] == [s[0]];
    if n == 2 {
      assert s[..2] == [s[0], s[1]];
      EncodesTwo(s[0], s[1]);
    } else if n == 3 {
      assert s[..3] == [s[0], s[1], s[2]];
      EncodesThree(s[0], s[1], s[2]);
    } else if n == 4 {
      assert s[..4] == [s[0], s[1], s[2], s[3]];
      EncodesFour(s[0], s[1], s[2], s[3]);
    }
  }

  lemma EncodesTwo(a: Byte, b: Byte)
    requires 0xC2 <= a <= 0xDF && Continuation(b)
    ensures Encode((a - 0xC0) * 0x40 + (b - 0x80)) == [a, b]
  {
    LastDigit(a - 0xC0, b - 0x80);
  }

  lemma EncodesThree(a: Byte, b: Byte, c: Byte)
    requires 0xE0 <= a <= 0xEF && Continuation(b) && Continuation(c) && (a == 0xE0 ==> b >= 0xA0)
    ensures Encode((a - 0xE0) * 0x1000 + (b - 0x80) * 0x40 + (c - 0x80)) == [a, b, c]
  {
    DigitsDetermine(0, a - 0xE0, b - 0x80, c - 0x80);
    LastDigit((a - 0xE0) * 0x40 + (b - 0x80), c - 0x80);
    LastDigit(a - 0xE0, b - 0x80);
  }

  lemma EncodesFour(a: Byte, b: Byte, c: Byte, d: Byte)
    requires 0xF0 <= a <= 0xF4 && Continuation(b) && Continuation(c) && Continuation(d)
    requires (a == 0xF0 ==> b >= 0x90) && (a == 0xF4 ==> b <= 0x8F)
    ensures Encode((a - 0xF0) * 0x40000 + (b - 0x80) * 0x1000 + (c - 0x80) * 0x40 + (d - 0x80)) == [a, b, c, d]
  {
    DigitsDetermine(a - 0xF0, b - 0x80, c - 0x80, d - 0x80);
  }

  ghost predicate EncodingStands(s: seq<Byte>, at: nat) {
    exists r: Rune :: Scalar(r) && Stands(s, at, Encode(r))
  }

  /** The piece of the string that a rune is read from. */
  ghost predicate ReadFrom(s: seq<Byte>, at: nat, piece: seq<Byte>, r: Rune) {
    if EncodingStands(s, at) then Scalar(r) && piece == Encode(r) else r == RUNE_ERROR && |piece| == 1
  }

  ghost predicate AllReadFrom(s: seq<Byte>, at: seq<nat>, pieces: seq<seq<Byte>>, rs: seq<Rune>) {
    |at| == |pieces| == |rs| && forall k :: 0 <= k < |pieces| ==> ReadFrom(s, at[k], pieces[k], rs[k])
  }

  /** A string is its runes' encodings one after the other, with the replacement rune for every byte
      where no encoding stands. */
  lemma {:induction false} RunesAre(s: seq<Byte>) returns (pieces: seq<seq<Byte>>, at: seq<nat>)
    ensures InPieces(s, pieces, at) && AllReadFrom(s, at, pieces, Runes(s))
    decreases |s|
  {
    pieces, at := [], [];
    if s != [] {
      var (r, n) := DecodeRune(s);
      var rest, restAt := RunesAre(s[n..]);
      pieces, at := [s[..n]] + rest, Moved(restAt, |s[..n]|);
      assert s == s[..n] + s[n..];
      OnePieceBefore(s[..n], s[n..], rest, restAt);
      FirstRune(s);
      AllReadFurther(s, n, restAt, rest, Runes(s[n..]), r);
    }
  }

  lemma AllReadFurther(s: seq<Byte>, n: nat, at: seq<nat>, pieces: seq<seq<Byte>>, rs: seq<Rune>, r: Rune)
    requires n <= |s| && AllReadFrom(s[n..], at, pieces, rs) && ReadFrom(s, 0, s[..n], r)
    ensures AllReadFrom(s, Moved(at, n), [s[..n]] + pieces, [r] + rs)
  {
    forall k | 0 <= k < |at| ensures ReadFrom(s, Moved(at, n)[k + 1], pieces[k], rs[k]) {
      NextReadFurther(s, n, at, pieces, rs, k);
    }
    Prepended((a, p, q) => ReadFrom(s, a, p, q), Moved(at, n), pieces, rs, s[..n], r);
  }

  lemma Prepended<B, C>(p: (nat, B, C) -> bool, at: seq<nat>, bs: seq<B>, cs: seq<C>, b: B, c: C)
    requires |at| == |bs| + 1 == |cs| + 1 && p(at[0], b, c) && forall k :: 0 <= k < |bs| ==> p(at[k + 1], bs[k], cs[k])
    ensures forall k :: 0 <= k < |at| ==> p(at[k], ([b] + bs)[k], ([c] + cs)[k])
  {
  }

  lemma NextReadFurther(s: seq<Byte>, n: nat, at: seq<nat>, pieces: seq<seq<Byte>>, rs: seq<Rune>, k: nat)
    requires n <= |s| && k < |at| == |pieces| == |rs| && ReadFrom(s[n..], at[k], pieces[k], rs[k])
    ensures ReadFrom(s, Moved(at, n)[k + 1], pieces[k], rs[k])
  {
    ReadFurther(s, n, at[k], pieces[k], rs[k]);
  }

  lemma FirstRune(s: seq<Byte>)
    requires s != []
    ensures ReadFrom(s, 0, s[..DecodeRune(s).1], DecodeRune(s).0)
  {
    var (r, n) := DecodeRune(s);
    DecodedIsEncoding(s);
    if EncodingStands(s, 0) {
      var q: Rune :| Scalar(q) && Stands(s, 0, Encode(q));
      DecodesEncoding(s, q);
    } else {
      assert Scalar(r) && s[..n] == Encode(r) ==> Stands(s, 0, Encode(r));
    }
  }

  lemma ReadFurther(s: seq<Byte>, n: nat, at: nat, piece: seq<Byte>, r: Rune)
    requires n <= |s| && ReadFrom(s[n..], at, piece, r)
    ensures ReadFrom(s, at + n, piece, r)
  {
    forall q: Rune ensures Stands(s[n..], at, Encode(q)) <==> Stands(s, at + n, Encode(q)) {
      if at + n + |Encode(q)| <= |s| {
        assert s[n..][at..at + |Encode(q)|] == s[at + n..at + n + |Encode(q)|];
      }
    }
  }

  /** All of a string's bytes are ASCII, as they are in the results of normalizing. */
  ghost predicate Ascii(s: seq<int>) {
    forall i :: 0 <= i < |s| ==> 0 <= s[i] < 0x80
  }

  lemma {:induction false} RunesOfAscii(s: seq<Byte>)
    requires Ascii(s)
    ensures Runes(s) == s
  {
    if s != [] {
      RunesOfAscii(s[1..]);
      assert s == [s[0]] + s[1..];
    }
  }

  // ---- Character classes ----

  predicate Alnum(r: int) {
    'a' as int <= r <= 'z' as int || '0' as int <= r <= '9' as int
  }

  const DASH: int := '-' as int
  const DOT: int := '.' as int
  const UNDERSCORE: int := '_' as int

  /** What the two replacing expressions keep: `[a-z0-9.]` and `[a-z0-9._]`. */
  datatype Kind = Identifier | LabelValue
  {
    predicate Keeps(r: int) {
      Alnum(r) || r == DOT || (LabelValue? && r == UNDERSCORE)
    }

    const limit: nat := if Identifier? then 253 else 63
  }

  /** What the model needs of `unicode.ToLower`: on ASCII it lowers the letters, and nothing else
      lowers to a dot. */
  ghost predicate ToLower(lower: Rune -> Rune) {
    forall r: Rune ::
      if r < 0x80 then lower(r) == if 'A' as int <= r <= 'Z' as int then r + 32 else r
      else lower(r) != DOT
  }

  function MapRunes(lower: Rune -> Rune, rs: seq<Rune>): (out: seq<Rune>)
    ensures |out| == |rs| && forall i :: 0 <= i < |rs| ==> out[i] == lower(rs[i])
  {
    seq(|rs|, i requires 0 <= i < |rs| => lower(rs[i]))
  }

  // ---- Stripping both ends ----

  /** `(^[^a-z0-9]+)|([^a-z0-9]+$)` replaced by nothing. */
  function StripLeft(s: seq<int>): seq<int> {
    if s != [] && !Alnum(s[0]) then StripLeft(s[1..]) else s
  }

  function StripRight(s: seq<int>): seq<int> {
    if s != [] && !Alnum(s[|s| - 1]) then StripRight(s[..|s| - 1]) else s
  }

  function Strip(s: seq<int>): seq<int> {
    StripRight(StripLeft(s))
  }

  ghost predicate AlnumEnds(s: seq<int>) {
    s != [] ==> Alnum(s[0]) && Alnum(s[|s| - 1])
  }

  lemma {:induction false} StripLeftFacts(s: seq<int>)
    ensures StripLeft(s) != [] ==> Alnum(StripLeft(s)[0])
    ensures |StripLeft(s)| <= |s|
    ensures s != [] && Alnum(s[0]) ==> StripLeft(s) == s
  {
    if s != [] && !Alnum(s[0]) { StripLeftFacts(s[1..]); }
  }

  lemma {:induction false} StripRightFacts(s: seq<int>)
    ensures StripRight(s) != [] ==> Alnum(StripRight(s)[|StripRight(s)| - 1]) && StripRight(s)[0] == s[0]
    ensures |StripRight(s)| <= |s|
    ensures s != [] && Alnum(s[|s| - 1]) ==> StripRight(s) == s
  {
    if s != [] && !Alnum(s[|s| - 1]) { StripRightFacts(s[..|s| - 1]); }
  }

  lemma StripFacts(s: seq<int>)
    ensures AlnumEnds(Strip(s)) && |Strip(s)| <= |s|
    ensures AlnumEnds(s) ==> Strip(s) == s
  {
    StripLeftFacts(s);
    StripRightFacts(StripLeft(s));
    if AlnumEnds(s) && s != [] { StripRightFacts(s); }
  }

  // ---- Replacing runs ----

  /** Every maximal run of runes that are not kept becomes one dash; `inRun` says that the run at
      the start has its dash already. */
  function Collapse(kind: Kind, s: seq<int>, inRun: bool): seq<Byte> {
    if s == [] then []
    else if kind.Keeps(s[0]) then [s[0]] + Collapse(kind, s[1..], false)
    else if inRun then Collapse(kind, s[1..], true)
    else [DASH] + Collapse(kind, s[1..], true)
  }

  ghost predicate Allowed(kind: Kind, s: seq<int>) {
    forall i :: 0 <= i < |s| ==> kind.Keeps(s[i]) || s[i] == DASH
  }

  ghost predicate NoDoubleDash(s: seq<int>) {
    forall i, j :: 0 <= i < |s| && j == i + 1 < |s| ==> !(s[i] == DASH && s[j] == DASH)
  }

  lemma {:induction false} CollapseForm(kind: Kind, s: seq<int>, inRun: bool)
    ensures var t := Collapse(kind, s, inRun);
      |t| <= |s| && Allowed(kind, t) && NoDoubleDash(t) && (inRun && t != [] ==> t[0] != DASH)
  {
    if s != [] {
      CollapseForm(kind, s[1..], !kind.Keeps(s[0]));
      var rest := Collapse(kind, s[1..], !kind.Keeps(s[0]));
      var t := Collapse(kind, s, inRun);
      if kind.Keeps(s[0]) || !inRun {
        assert t[1..] == rest;
        assert forall i :: 0 < i < |t| ==> t[i] == rest[i - 1];
      }
    }
  }

  lemma {:induction false} CollapseEnds(kind: Kind, s: seq<int>, inRun: bool)
    ensures var t := Collapse(kind, s, inRun);
      && (s != [] && kind.Keeps(s[0]) ==> t != [] && t[0] == s[0])
      && (s != [] && kind.Keeps(s[|s| - 1]) ==> t != [] && t[|t| - 1] == s[|s| - 1])
  {
    if s != [] {
      CollapseEnds(kind, s[1..], !kind.Keeps(s[0]));
    }
  }

  lemma CollapseFacts(kind: Kind, s: seq<int>, inRun: bool)
    ensures var t := Collapse(kind, s, inRun);
      && |t| <= |s| && Allowed(kind, t) && NoDoubleDash(t)
      && (s != [] && kind.Keeps(s[0]) ==> t != [] && t[0] == s[0])
      && (s != [] && kind.Keeps(s[|s| - 1]) ==> t != [] && t[|t| - 1] == s[|s| - 1])
  {
    CollapseForm(kind, s, inRun);
    CollapseEnds(kind, s, inRun);
  }

  /** A string in the result's form is left alone. */
  lemma {:induction false} CollapseFixed(kind: Kind, s: seq<int>, inRun: bool)
    requires Allowed(kind, s) && NoDoubleDash(s) && (inRun && s != [] ==> s[0] != DASH)
    ensures Collapse(kind, s, inRun) == s
  {
    if s != [] {
      CollapseFixed(kind, s[1..], !kind.Keeps(s[0]));
      assert s == [s[0]] + s[1..];
    }
  }

  // ---- The same without recursion ----

  /** `t` is `s` without what is not alphanumeric at its ends. */
  ghost predicate EndsStripped(s: seq<int>, t: seq<int>) {
    exists i, j :: StrippedAt(s, t, i, j)
  }

  ghost predicate StrippedAt(s: seq<int>, t: seq<int>, i: nat, j: nat) {
    && i <= j <= |s| && t == s[i..j]
    && (forall k :: 0 <= k < i ==> !Alnum(s[k]))
    && (forall k :: j <= k < |s| ==> !Alnum(s[k]))
    && (i < j ==> Alnum(s[i]) && Alnum(s[j - 1]))
  }

  lemma {:induction false} StripLeftIs(s: seq<int>) returns (i: nat)
    ensures i <= |s| && StripLeft(s) == s[i..] && (forall k :: 0 <= k < i ==> !Alnum(s[k])) && (i < |s| ==> Alnum(s[i]))
  {
    i := 0;
    if s != [] && !Alnum(s[0]) {
      var rest := StripLeftIs(s[1..]);
      i := rest + 1;
      assert forall k :: 0 < k < i ==> s[k] == s[1..][k - 1];
    }
  }

  lemma {:induction false} StripRightIs(s: seq<int>) returns (j: nat)
    ensures j <= |s| && StripRight(s) == s[..j] && (forall k :: j <= k < |s| ==> !Alnum(s[k])) && (j > 0 ==> Alnum(s[j - 1]))
  {
    j := |s|;
    if s != [] && !Alnum(s[|s| - 1]) {
      j := StripRightIs(s[..|s| - 1]);
      assert s[..|s| - 1][..j] == s[..j];
    } else {
      assert s[..j] == s;
    }
  }

  lemma StripIs(s: seq<int>)
    ensures EndsStripped(s, Strip(s))
  {
    var i := StripLeftIs(s);
    var n := StripRightIs(s[i..]);
    assert Strip(s) == s[i..][..n] == s[i..i + n];
    assert forall k :: i <= k < |s| ==> s[k] == s[i..][k - i];
    assert StrippedAt(s, Strip(s), i, i + n);
  }

  /** All of a run is kept, or none of it. */
  ghost predicate Uniform(keep: int -> bool, run: seq<int>) {
    run != [] && forall i :: 0 <= i < |run| ==> keep(run[i]) == keep(run[0])
  }

  /** `runs` alternate between what is kept and what is not. */
  ghost predicate Alternate(keep: int -> bool, runs: seq<seq<int>>) {
    && (forall k :: 0 <= k < |runs| ==> Uniform(keep, runs[k]))
    && (forall k, l :: 0 <= k && l == k + 1 < |runs| ==> keep(runs[k][0]) != keep(runs[l][0]))
  }

  function DashFor(keep: int -> bool, run: seq<int>): seq<int> {
    if run != [] && keep(run[0]) then run else [DASH]
  }

  function Dashes(keep: int -> bool, runs: seq<seq<int>>): (out: seq<seq<int>>)
    ensures |out| == |runs| && forall k :: 0 <= k < |runs| ==> out[k] == DashFor(keep, runs[k])
  {
    seq(|runs|, k requires 0 <= k < |runs| => DashFor(keep, runs[k]))
  }

  /** `t` is `s` with one dash for every maximal run of what is not kept. */
  ghost predicate Dashed(keep: int -> bool, s: seq<int>, t: seq<int>) {
    exists runs, at, to :: DashedAt(keep, s, t, runs, at, to)
  }

  ghost predicate DashedAt(keep: int -> bool, s: seq<int>, t: seq<int>, runs: seq<seq<int>>, at: seq<nat>, to: seq<nat>) {
    Alternate(keep, runs) && InPieces(s, runs, at) && InPieces(t, Dashes(keep, runs), to)
  }

  /** The length of the run at the start. */
  function FirstRun(keep: int -> bool, s: seq<int>): (n: nat)
    requires s != []
    ensures 1 <= n <= |s| && Uniform(keep, s[..n])
    ensures n < |s| ==> keep(s[n]) != keep(s[0])
  {
    if |s| == 1 || keep(s[1]) != keep(s[0]) then 1
    else
      var n := FirstRun(keep, s[1..]);
      assert forall i :: 0 < i <= n ==> s[i] == s[1..][..n][i - 1];
      n + 1
  }

  function Keeping(kind: Kind): int -> bool {
    (r: int) => kind.Keeps(r)
  }

  lemma CollapseStep(kind: Kind, s: seq<int>, inRun: bool)
    requires s != []
    ensures Collapse(kind, s, inRun) ==
      (if kind.Keeps(s[0]) then [s[0]] else if inRun then [] else [DASH]) + Collapse(kind, s[1..], !kind.Keeps(s[0]))
  {
  }

  /** Collapsing treats a run as a whole: one that is kept, */
  lemma {:induction false} KeptRun(kind: Kind, s: seq<int>, n: nat)
    requires n <= |s| && forall i :: 0 <= i < n ==> kind.Keeps(s[i])
    ensures Collapse(kind, s, false) == s[..n] + Collapse(kind, s[n..], false)
    decreases n
  {
    if n == 0 {
      assert s[0..] == s && s[..0] == [];
    } else {
      CollapseStep(kind, s, false);
      KeptRun(kind, s[1..], n - 1);
      assert s[1..][n - 1..] == s[n..] && s[..n] == [s[0]] + s[1..][..n - 1];
    }
  }

  /** and the rest of one that is not. */
  lemma {:induction false} SkippedRun(kind: Kind, s: seq<int>, n: nat)
    requires n <= |s| && forall i :: 0 <= i < n ==> !kind.Keeps(s[i])
    ensures Collapse(kind, s, true) == Collapse(kind, s[n..], true)
    decreases n
  {
    if n == 0 {
      assert s[0..] == s;
    } else {
      CollapseStep(kind, s, true);
      SkippedRun(kind, s[1..], n - 1);
      assert s[1..][n - 1..] == s[n..];
    }
  }

  lemma FirstCollapses(kind: Kind, s: seq<int>)
    requires s != []
    ensures var n := FirstRun(Keeping(kind), s);
      Collapse(kind, s, false) == DashFor(Keeping(kind), s[..n]) + Collapse(kind, s[n..], false)
  {
    var keep := Keeping(kind);
    var n := FirstRun(keep, s);
    assert s[..n][0] == s[0];
    forall i | 0 <= i < n ensures kind.Keeps(s[i]) == kind.Keeps(s[0]) {
      assert s[i] == s[..n][i];
    }
    if kind.Keeps(s[0]) {
      KeptRun(kind, s, n);
    } else {
      DroppedRun(kind, s, n);
    }
  }

  lemma DroppedRun(kind: Kind, s: seq<int>, n: nat)
    requires 1 <= n <= |s| && (forall i :: 0 <= i < n ==> !kind.Keeps(s[i])) && (n < |s| ==> kind.Keeps(s[n]))
    ensures Collapse(kind, s, false) == [DASH] + Collapse(kind, s[n..], false)
  {
    CollapseStep(kind, s, false);
    SkippedRun(kind, s[1..], n - 1);
    assert s[1..][n - 1..] == s[n..];
    if n < |s| {
      CollapseStep(kind, s[n..], true);
      CollapseStep(kind, s[n..], false);
    }
  }

  lemma {:induction false} CollapseIsDashed(kind: Kind, s: seq<int>)
    returns (runs: seq<seq<int>>, at: seq<nat>, to: seq<nat>)
    ensures DashedAt(Keeping(kind), s, Collapse(kind, s, false), runs, at, to)
    decreases |s|
  {
    runs, at, to := [], [], [];
    if s != [] {
      var n := FirstRun(Keeping(kind), s);
      runs, at, to := CollapseIsDashed(kind, s[n..]);
      runs, at, to := NextRun(kind, s, n, runs, at, to);
    }
  }

  lemma NextRun(kind: Kind, s: seq<int>, n: nat, rest: seq<seq<int>>, restAt: seq<nat>, restTo: seq<nat>)
    returns (runs: seq<seq<int>>, at: seq<nat>, to: seq<nat>)
    requires s != [] && n == FirstRun(Keeping(kind), s)
    requires DashedAt(Keeping(kind), s[n..], Collapse(kind, s[n..], false), rest, restAt, restTo)
    ensures DashedAt(Keeping(kind), s, Collapse(kind, s, false), runs, at, to)
  {
    FirstCollapses(kind, s);
    HeadDiffers(Keeping(kind), s, n);
    runs, at, to := OneMoreRun(Keeping(kind), s, Collapse(kind, s, false), s[..n], s[n..], Collapse(kind, s[n..], false), rest, restAt, restTo);
  }

  lemma HeadDiffers(keep: int -> bool, s: seq<int>, n: nat)
    requires s != [] && n == FirstRun(keep, s)
    ensures s == s[..n] + s[n..] && (s[n..] != [] ==> keep(s[n..][0]) != keep(s[..n][0]))
  {
  }

  lemma OneMoreRun(keep: int -> bool, s: seq<int>, t: seq<int>, run: seq<int>, tail: seq<int>, out: seq<int>,
      rest: seq<seq<int>>, restAt: seq<nat>, restTo: seq<nat>)
    returns (runs: seq<seq<int>>, at: seq<nat>, to: seq<nat>)
    requires Uniform(keep, run) && DashedAt(keep, tail, out, rest, restAt, restTo)
    requires s == run + tail && t == DashFor(keep, run) + out
    requires tail != [] ==> keep(tail[0]) != keep(run[0])
    ensures DashedAt(keep, s, t, runs, at, to)
  {
    runs, at, to := [run] + rest, Moved(restAt, |run|), Moved(restTo, |DashFor(keep, run)|);
    OnePieceBefore(run, tail, rest, restAt);
    OnePieceBefore(DashFor(keep, run), out, Dashes(keep, rest), restTo);
    assert Dashes(keep, runs) == [DashFor(keep, run)] + Dashes(keep, rest);
    RunsContinue(keep, run, tail, rest, restAt);
  }

  lemma RunsContinue(keep: int -> bool, run: seq<int>, s: seq<int>, rest: seq<seq<int>>, at: seq<nat>)
    requires Uniform(keep, run) && Alternate(keep, rest) && InPieces(s, rest, at)
    requires s != [] ==> keep(s[0]) != keep(run[0])
    ensures Alternate(keep, [run] + rest)
  {
    if rest != [] {
      assert Uniform(keep, rest[0]) && Stands(s, at[0], rest[0]);
      assert s[0..|rest[0]|][0] == s[0];
    }
  }

  // ---- normalize ----

  function Truncate(name: seq<Byte>, limit: nat): seq<Byte> {
    if |name| >= limit then name[..limit] else name
  }

  /** The name truncated, lowered and stripped, as runes. */
  function Stripped(kind: Kind, lower: Rune -> Rune, name: seq<Byte>): seq<int> {
    Strip(MapRunes(lower, Runes(Truncate(name, kind.limit))))
  }

  function Normalized(kind: Kind, lower: Rune -> Rune, name: seq<Byte>): seq<Byte> {
    Collapse(kind, Stripped(kind, lower, name), false)
  }

  /** What every result of `normalize` looks like. */
  ghost predicate NormalForm(kind: Kind, s: seq<int>) {
    |s| <= kind.limit && Allowed(kind, s) && AlnumEnds(s) && NoDoubleDash(s)
  }

  /** For every input the result is within the limit, made of allowed characters and single dashes,
      and empty or with alphanumeric ends. */
  lemma NormalizedForm(kind: Kind, lower: Rune -> Rune, name: seq<Byte>)
    ensures NormalForm(kind, Normalized(kind, lower, name))
  {
    var runes := MapRunes(lower, Runes(Truncate(name, kind.limit)));
    StripFacts(runes);
    CollapseFacts(kind, Strip(runes), false);
  }

  /** Normalizing again changes nothing. */
  lemma NormalizedTwice(kind: Kind, lower: Rune -> Rune, name: seq<Byte>)
    requires ToLower(lower)
    ensures Normalized(kind, lower, Normalized(kind, lower, name)) == Normalized(kind, lower, name)
  {
    NormalizedForm(kind, lower, name);
    NormalFormIsFixed(kind, lower, Normalized(kind, lower, name));
  }

  lemma AllowedIsAscii(kind: Kind, s: seq<int>)
    requires Allowed(kind, s)
    ensures Ascii(s)
  {
  }

  /** Lowering leaves ASCII strings without capitals alone. */
  lemma LoweredAlready(kind: Kind, lower: Rune -> Rune, s: seq<Byte>)
    requires ToLower(lower) && Allowed(kind, s)
    ensures MapRunes(lower, Runes(s)) == s
  {
    AllowedIsAscii(kind, s);
    RunesOfAscii(s);
    forall i | 0 <= i < |s| ensures lower(s[i]) == s[i] {
      assert s[i] < 0x80;
    }
  }

  lemma NormalFormIsFixed(kind: Kind, lower: Rune -> Rune, s: seq<Byte>)
    requires ToLower(lower) && NormalForm(kind, s)
    ensures Normalized(kind, lower, s) == s
  {
    assert Truncate(s, kind.limit) == s;
    LoweredAlready(kind, lower, s);
    StripFacts(s);
    CollapseFixed(kind, s, false);
  }

  /** The letters and digits of a string, in order. */
  function Letters(s: seq<int>): seq<int> {
    if s == [] then [] else if Alnum(s[0]) then [s[0]] + Letters(s[1..]) else Letters(s[1..])
  }

  lemma {:induction false} LettersWithoutLast(s: seq<int>)
    requires s != [] && !Alnum(s[|s| - 1])
    ensures Letters(s[..|s| - 1]) == Letters(s)
  {
    if |s| > 1 {
      LettersWithoutLast(s[1..]);
      assert s[..|s| - 1][1..] == s[1..][..|s| - 2];
    }
  }

  lemma {:induction false} StripRightLetters(s: seq<int>)
    ensures Letters(StripRight(s)) == Letters(s)
  {
    if s != [] && !Alnum(s[|s| - 1]) {
      LettersWithoutLast(s);
      StripRightLetters(s[..|s| - 1]);
    }
  }

  lemma {:induction false} StripLeftLetters(s: seq<int>)
    ensures Letters(StripLeft(s)) == Letters(s)
  {
    if s != [] && !Alnum(s[0]) { StripLeftLetters(s[1..]); }
  }

  lemma {:induction false} CollapseLetters(kind: Kind, s: seq<int>, inRun: bool)
    ensures Letters(Collapse(kind, s, inRun)) == Letters(s)
  {
    if s != [] {
      var rest := Collapse(kind, s[1..], !kind.Keeps(s[0]));
      CollapseLetters(kind, s[1..], !kind.Keeps(s[0]));
      assert ([s[0]] + rest)[1..] == rest && ([DASH] + rest)[1..] == rest;
    }
  }

  /** Normalizing loses, adds and reorders no letter or digit of the lowered, cut name. */
  lemma {:induction false} LettersKept(kind: Kind, lower: Rune -> Rune, name: seq<Byte>)
    ensures Letters(Normalized(kind, lower, name)) ==
      Letters(MapRunes(lower, Runes(if |name| < kind.limit then name else name[..kind.limit])))
  {
    var runes := MapRunes(lower, Runes(Truncate(name, kind.limit)));
    StripLeftLetters(runes);
    StripRightLetters(StripLeft(runes));
    CollapseLetters(kind, Strip(runes), false);
  }

  /** The four steps of `normalize`, one assignment each. */
  method Normalize(kind: Kind, lower: Rune -> Rune, name: seq<Byte>) returns (out: seq<Byte>)
    ensures NormalForm(kind, out)
    ensures Letters(out) == Letters(MapRunes(lower, Runes(if |name| < kind.limit then name else name[..kind.limit])))
    ensures ToLower(lower) ==> Normalized(kind, lower, out) == out
    ensures out == Normalized(kind, lower, name)
  {
    var n := name;
    if |n| >= kind.limit {
      n := n[..kind.limit];
    }
    var runes := MapRunes(lower, Runes(n));
    var stripped := Strip(runes);
    out := Collapse(kind, stripped, false);
    NormalizedForm(kind, lower, name);
    LettersKept(kind, lower, name);
    if ToLower(lower) { NormalizedTwice(kind, lower, name); }
  }

  // ---- Kubernetes' own rules ----

  predicate AlnumAnyCase(r: int) {
    Alnum(r) || 'A' as int <= r <= 'Z' as int
  }

  /** `IsValidLabelValue`: at most 63 characters of `[-A-Za-z0-9_.]`, empty or with alphanumeric ends. */
  predicate ValidLabelValue(s: seq<int>) {
    && |s| <= 63
    && (forall i :: 0 <= i < |s| ==> AlnumAnyCase(s[i]) || s[i] == DASH || s[i] == UNDERSCORE || s[i] == DOT)
    && (s != [] ==> AlnumAnyCase(s[0]) && AlnumAnyCase(s[|s| - 1]))
  }

  /** A DNS label, `[a-z0-9]([-a-z0-9]*[a-z0-9])?`. */
  predicate DNSLabel(s: seq<int>) {
    && s != [] && (forall i :: 0 <= i < |s| ==> Alnum(s[i]) || s[i] == DASH)
    && Alnum(s[0]) && Alnum(s[|s| - 1])
  }

  function FirstDot(s: seq<int>): (i: nat)
    ensures i <= |s| && (i < |s| ==> s[i] == DOT)
    ensures forall j :: 0 <= j < i ==> s[j] != DOT
  {
    if s == [] || s[0] == DOT then 0 else 1 + FirstDot(s[1..])
  }

  /** DNS labels joined by dots. */
  predicate DNSLabels(s: seq<int>)
    decreases |s|
  {
    var i := FirstDot(s);
    DNSLabel(s[..i]) && (i < |s| ==> DNSLabels(s[i + 1..]))
  }

  /** `IsDNS1123Subdomain`: at most 253 characters, dot-separated labels. */
  predicate DNS1123Subdomain(s: seq<int>) {
    |s| <= 253 && DNSLabels(s)
  }

  /** The character at `i` stands between alphanumerics; `prev` says that the one before `s` is one. */
  predicate Between(prev: bool, s: seq<int>, i: nat)
    requires i < |s|
  {
    i + 1 < |s| && Alnum(s[i + 1]) && if i == 0 then prev else Alnum(s[i - 1])
  }

  ghost predicate DotsBetween(prev: bool, s: seq<int>) {
    forall i: nat :: i < |s| && s[i] == DOT ==> Between(prev, s, i)
  }

  /** Every dot stands between two alphanumeric characters. */
  ghost predicate DotsSeparate(s: seq<int>) {
    DotsBetween(false, s)
  }

  /** Alphanumeric ends, kept characters and dashes, and no dot beside a dash or a dot. */
  ghost predicate Subdomain(s: seq<int>) {
    s != [] && AlnumEnds(s) && Allowed(Identifier, s) && DotsSeparate(s)
  }

  /** Dot-separated labels, said of the whole string. */
  lemma {:induction false} DNSLabelsIff(s: seq<int>)
    ensures DNSLabels(s) <==> Subdomain(s)
    decreases |s|
  {
    var i := FirstDot(s);
    if i < |s| {
      DNSLabelsIff(s[i + 1..]);
      if DNSLabels(s) { SubdomainJoins(s, i); }
      if Subdomain(s) { SubdomainSplits(s, i); }
    } else {
      assert s[..i] == s;
    }
  }

  lemma SubdomainJoins(s: seq<int>, i: nat)
    requires i < |s| && s[i] == DOT && DNSLabel(s[..i]) && Subdomain(s[i + 1..])
    ensures Subdomain(s)
  {
    var first, rest := s[..i], s[i + 1..];
    assert s == first + [DOT] + rest;
    assert forall j :: 0 <= j < i ==> s[j] == first[j] && s[j] != DOT;
    forall j: nat | j < |s| && s[j] == DOT ensures Between(false, s, j) {
      if j > i {
        assert rest[j - i - 1] == DOT && Between(false, rest, j - i - 1);
      }
    }
  }

  lemma SubdomainSplits(s: seq<int>, i: nat)
    requires i < |s| && s[i] == DOT && DOT !in s[..i] && Subdomain(s)
    ensures DNSLabel(s[..i]) && Subdomain(s[i + 1..])
  {
    var first, rest := s[..i], s[i + 1..];
    assert Between(false, s, i);
    assert s == first + [DOT] + rest;
    forall j: nat | j < |rest| && rest[j] == DOT ensures Between(false, rest, j) {
      assert s[j + i + 1] == DOT && Between(false, s, j + i + 1);
    }
    assert forall j :: 0 <= j < i ==> first[j] == s[j] && first[j] in first;
  }

  // ---- The two exported functions ----

  function NormalizeLabelValue(lower: Rune -> Rune, name: seq<Byte>): seq<Byte> {
    if ValidLabelValue(name) then name else Normalized(LabelValue, lower, name)
  }

  function NormalizeIdentifier(lower: Rune -> Rune, name: seq<Byte>): seq<Byte> {
    if DNS1123Subdomain(name) then name else Normalized(Identifier, lower, name)
  }

  lemma LabelValueAlwaysValid(lower: Rune -> Rune, name: seq<Byte>)
    ensures ValidLabelValue(NormalizeLabelValue(lower, name))
  {
    NormalizedForm(LabelValue, lower, name);
  }

  /** `t` is `s` without what is not alphanumeric at its ends, and then with one dash for every
      maximal run of what is not kept. */
  ghost predicate Cleaned(keep: int -> bool, s: seq<int>, t: seq<int>) {
    exists u :: EndsStripped(s, u) && Dashed(keep, u, t)
  }

  /** What is kept of an identifier is `[a-z0-9.]`, of a label value `[a-z0-9._]`. */
  lemma WhatIsKept(r: Rune)
    ensures Keeping(Identifier)(r) <==> 'a' as int <= r <= 'z' as int || '0' as int <= r <= '9' as int || r == '.' as int
    ensures Keeping(LabelValue)(r) <==> Keeping(Identifier)(r) || r == '_' as int
  {
  }

  lemma NormalizedIsCleaned(kind: Kind, lower: Rune -> Rune, name: seq<Byte>)
    ensures Cleaned(Keeping(kind), MapRunes(lower, Runes(Truncate(name, kind.limit))), Normalized(kind, lower, name))
  {
    var runes := MapRunes(lower, Runes(Truncate(name, kind.limit)));
    StripIs(runes);
    var runs, at, to := CollapseIsDashed(kind, Strip(runes));
    assert Dashed(Keeping(kind), Strip(runes), Normalized(kind, lower, name));
  }

  /** A valid label value, and only that, is left as it is. Of any other name the first 63 bytes are
      lowered and cleaned. */
  lemma LabelValueIs(lower: Rune -> Rune, name: seq<Byte>)
    ensures NormalizeLabelValue(lower, name) == name <==> ValidLabelValue(name)
    ensures !ValidLabelValue(name) ==>
      Cleaned(Keeping(LabelValue), MapRunes(lower, Runes(if |name| < 63 then name else name[..63])), NormalizeLabelValue(lower, name))
  {
    LabelValueAlwaysValid(lower, name);
    NormalizedIsCleaned(LabelValue, lower, name);
  }

  /** A DNS-1123 subdomain is left as it is, and so is a name that has the form of every result. Of
      any name but a subdomain the first 253 bytes are lowered and cleaned. */
  lemma IdentifierIs(lower: Rune -> Rune, name: seq<Byte>)
    requires ToLower(lower)
    ensures NormalizeIdentifier(lower, name) == name <==> DNS1123Subdomain(name) || NormalForm(Identifier, name)
    ensures !DNS1123Subdomain(name) ==>
      Cleaned(Keeping(Identifier), MapRunes(lower, Runes(if |name| < 253 then name else name[..253])), NormalizeIdentifier(lower, name))
  {
    NormalizedForm(Identifier, lower, name);
    NormalizedIsCleaned(Identifier, lower, name);
    if NormalForm(Identifier, name) { NormalFormIsFixed(Identifier, lower, name); }
  }

  /** Every dot stands between alphanumerics, read from the left; `prev` says that the character
      before is one. */
  predicate DotsOk(prev: bool, s: seq<int>)
    decreases |s|
  {
    s == [] ||
    ((s[0] == DOT ==> prev && |s| > 1 && Alnum(s[1])) && DotsOk(Alnum(s[0]), s[1..]))
  }

  lemma {:induction false} DotsOkIff(prev: bool, s: seq<int>)
    ensures DotsOk(prev, s) <==> DotsBetween(prev, s)
    decreases |s|
  {
    if s != [] {
      var rest, head := s[1..], Alnum(s[0]);
      DotsOkIff(head, rest);
      if DotsBetween(prev, s) {
        assert s[0] == DOT ==> Between(prev, s, 0);
        forall i: nat | i < |rest| && rest[i] == DOT ensures Between(head, rest, i) {
          assert s[i + 1] == DOT && Between(prev, s, i + 1);
        }
      }
      if DotsOk(prev, s) {
        forall i: nat | i < |s| && s[i] == DOT ensures Between(prev, s, i) {
          if i > 0 {
            assert rest[i - 1] == DOT && Between(head, rest, i - 1);
          }
        }
      }
    }
  }

  /** Collapsing keeps whether every dot stands between alphanumerics. */
  lemma {:induction false} CollapseDots(s: seq<int>, inRun: bool, prev: bool)
    requires inRun ==> !prev
    decreases |s|
    ensures DotsOk(prev, s) <==> DotsOk(prev, Collapse(Identifier, s, inRun))
  {
    if s != [] {
      var rest := Collapse(Identifier, s[1..], !Identifier.Keeps(s[0]));
      CollapseDots(s[1..], !Identifier.Keeps(s[0]), Alnum(s[0]));
      if Identifier.Keeps(s[0]) {
        assert ([s[0]] + rest)[1..] == rest;
        if |s| > 1 { CollapseHead(s[1..]); }
      } else if !inRun {
        assert ([DASH] + rest)[1..] == rest;
      }
    }
  }

  lemma CollapseHead(s: seq<int>)
    requires s != []
    ensures var t := Collapse(Identifier, s, false);
      t != [] && (Alnum(t[0]) <==> Alnum(s[0]))
  {
  }

  /** The result is a DNS-1123 subdomain exactly when the name is one already, or something is left
      of it after stripping in which every dot stands between alphanumerics. */
  lemma IdentifierValidIff(lower: Rune -> Rune, name: seq<Byte>)
    ensures DNS1123Subdomain(NormalizeIdentifier(lower, name)) <==>
      DNS1123Subdomain(name) || (Stripped(Identifier, lower, name) != [] && DotsSeparate(Stripped(Identifier, lower, name)))
  {
    if !DNS1123Subdomain(name) {
      var s, t := Stripped(Identifier, lower, name), Normalized(Identifier, lower, name);
      NormalizedForm(Identifier, lower, name);
      DNSLabelsIff(t);
      StripFacts(MapRunes(lower, Runes(Truncate(name, Identifier.limit))));
      if s != [] {
        CollapseHead(s);
        CollapseDots(s, false, false);
        DotsOkIff(false, s);
        DotsOkIff(false, t);
      }
    }
  }

  /** A short name without capitals and with alphanumeric ends reaches the last step as it is. */
  lemma StrippedAlready(lower: Rune -> Rune, name: seq<Byte>)
    requires ToLower(lower) && Ascii(name) && |name| < Identifier.limit && AlnumEnds(name)
    requires forall i :: 0 <= i < |name| ==> lower(name[i]) == name[i]
    ensures Stripped(Identifier, lower, name) == name
  {
    RunesOfAscii(name);
    assert MapRunes(lower, Runes(name)) == name;
    StripFacts(name);
  }

  const COMMENTED_EXAMPLE: seq<Byte> := ['a' as int, DOT, '#' as int, 'b' as int]

  /** The example of the source's own comment, "a.#b": the dot ends up beside a dash. */
  lemma CommentedExample(lower: Rune -> Rune)
    requires ToLower(lower)
    ensures !DNS1123Subdomain(NormalizeIdentifier(lower, COMMENTED_EXAMPLE))
  {
    var name := COMMENTED_EXAMPLE;
    StrippedAlready(lower, name);
    IdentifierValidIff(lower, name);
    DNSLabelsIff(name);
    assert name[1] == DOT && !Between(false, name, 1);
  }

  /** A dot-free name gives the empty string or a DNS-1123 subdomain. */
  lemma DotFreeIdentifier(lower: Rune -> Rune, name: seq<Byte>)
    requires ToLower(lower) && DOT !in name
    ensures NormalizeIdentifier(lower, name) == [] || DNS1123Subdomain(NormalizeIdentifier(lower, name))
  {
    var cut := Truncate(name, Identifier.limit);
    RunesDotFree(cut);
    var runes := MapRunes(lower, Runes(cut));
    assert forall i :: 0 <= i < |runes| ==> Runes(cut)[i] != DOT && runes[i] != DOT;
    StripFrom(runes);
    assert DOT !in runes && DOT !in Strip(runes);
    assert DotsSeparate(Strip(runes));
    IdentifierValidIff(lower, name);
  }

  lemma {:induction false} RunesDotFree(s: seq<Byte>)
    requires DOT !in s
    ensures DOT !in Runes(s)
    decreases |s|
  {
    if s != [] {
      RunesDotFree(s[DecodeRune(s).1..]);
      assert s[0] != DOT;
    }
  }

  lemma StripFrom(s: seq<int>)
    ensures forall x :: x in Strip(s) ==> x in s
  {
    StripLeftFrom(s);
    StripRightFrom(StripLeft(s));
  }

  lemma {:induction false} StripLeftFrom(s: seq<int>)
    ensures forall x :: x in StripLeft(s) ==> x in s
  {
    if s != [] && !Alnum(s[0]) { StripLeftFrom(s[1..]); }
  }

  lemma {:induction false} StripRightFrom(s: seq<int>)
    ensures forall x :: x in StripRight(s) ==> x in s
  {
    if s != [] && !Alnum(s[|s| - 1]) { StripRightFrom(s[..|s| - 1]); }
  }

  // ---- ParseDeploymentNameFromPodName ----

  /** `ParseDeploymentNameFromPodName`: all dash-separated parts but the last two; `None` is the error. */
  function ParseDeploymentNameFromPodName(podName: string): Option<string> {
    var parts := Split(podName, '-');
    if |parts| <= 2 then None else Some(Join(parts[..|parts| - 2], '-'))
  }

  /** It fails exactly on strings with fewer than two dashes. */
  lemma ParseFailsIff(podName: string)
    ensures ParseDeploymentNameFromPodName(podName).None? <==> Count(podName, '-') < 2
  {
    JoinOfSplit(podName, '-');
  }

  /** The deployment's name, dashes or not, comes back from `name-hash1-hash2` for any two
      dash-free hashes; and whatever comes back from a pod name is such a name. */
  lemma ParseRoundTrip(podName: string, name: string)
    ensures ParseDeploymentNameFromPodName(podName) == Some(name) <==>
      exists hash1, hash2 :: '-' !in hash1 && '-' !in hash2 && podName == PodName(name, hash1, hash2)
  {
    if ParseDeploymentNameFromPodName(podName) == Some(name) {
      var parts := Split(podName, '-');
      JoinOfSplit(podName, '-');
      var n := |parts|;
      assert parts == parts[..n - 2] + [parts[n - 2]] + [parts[n - 1]];
      JoinAppend(parts[..n - 2] + [parts[n - 2]], parts[n - 1], '-');
      JoinAppend(parts[..n - 2], parts[n - 2], '-');
      assert podName == PodName(name, parts[n - 2], parts[n - 1]);
    }
    if hash1, hash2 :| '-' !in hash1 && '-' !in hash2 && podName == PodName(name, hash1, hash2) {
      PodNameParses(name, hash1, hash2);
    }
  }

  function PodName(name: string, hash1: string, hash2: string): string {
    name + "-" + hash1 + "-" + hash2
  }

  lemma PodNameParses(name: string, hash1: string, hash2: string)
    requires '-' !in hash1 && '-' !in hash2
    ensures ParseDeploymentNameFromPodName(PodName(name, hash1, hash2)) == Some(name)
  {
    var parts := Split(name, '-');
    var whole := parts + [hash1] + [hash2];
    JoinOfSplit(name, '-');
    JoinAppend(parts, hash1, '-');
    JoinAppend(parts + [hash1], hash2, '-');
    SplitOfJoin(whole, '-');
    assert whole[..|whole| - 2] == parts;
  }
}
