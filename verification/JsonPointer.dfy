/** JSON Pointer escaping of annotation names (pkg/controller/state/annotations.go) and the patch
    path it is used in (pkg/controller/state/reapply.go), read back as RFC 6901 prescribes. */
module JsonPointer {
  import opened Text

  // ---- Escaping ----

  /** `strings.NewReplacer("/", "~1", "~", "~0").Replace`: one pass, each byte at most once. */
  function Escape(s: string): string {
    if s == [] then ""
    else (if s[0] == '/' then "~1" else if s[0] == '~' then "~0" else [s[0]]) + Escape(s[1..])
  }

  /** What one byte becomes. */
  function Image(c: char): string {
    if c == '~' then "~0" else if c == '/' then "~1" else [c]
  }

  function Images(s: string): (images: seq<string>)
    ensures |images| == |s| && forall i :: 0 <= i < |s| ==> images[i] == Image(s[i])
  {
    seq(|s|, i requires 0 <= i < |s| => Image(s[i]))
  }

  /** The escaped form is the images of the bytes one after the other. */
  lemma {:induction false} EscapeIsImages(s: string) returns (at: seq<nat>)
    ensures InPieces(Escape(s), Images(s), at)
  {
    at := [];
    if s != [] {
      at := EscapeIsImages(s[1..]);
      OneMoreImage(s, at);
      at := Moved(at, |Image(s[0])|);
    }
  }

  lemma OneMoreImage(s: string, at: seq<nat>)
    requires s != [] && InPieces(Escape(s[1..]), Images(s[1..]), at)
    ensures InPieces(Escape(s), Images(s), Moved(at, |Image(s[0])|))
  {
    OnePieceBefore(Image(s[0]), Escape(s[1..]), Images(s[1..]), at);
    FirstImage(s);
  }

  lemma FirstImage(s: string)
    requires s != []
    ensures Escape(s) == Image(s[0]) + Escape(s[1..]) && Images(s) == [Image(s[0])] + Images(s[1..])
  {
  }

  /** `strings.ReplaceAll` with a one-byte old string. */
  function ReplaceChar(s: string, from: char, sub: string): string {
    if s == [] then "" else (if s[0] == from then sub else [s[0]]) + ReplaceChar(s[1..], from, sub)
  }

  /** `strings.ReplaceAll` of `~` and a digit by one byte. */
  function ReplacePair(s: string, digit: char, sub: char): string {
    if s == [] then ""
    else if |s| > 1 && s[0] == '~' && s[1] == digit then [sub] + ReplacePair(s[2..], digit, sub)
    else [s[0]] + ReplacePair(s[1..], digit, sub)
  }

  /** Section 4 of RFC 6901: first `~1` becomes `/`, then `~0` becomes `~`. */
  function Decode(t: string): string {
    ReplacePair(ReplacePair(t, '1', '/'), '0', '~')
  }

  /** Section 3 of RFC 6901: a reference token has no `/`, and `~` only before `0` or `1`. */
  ghost predicate ReferenceToken(t: string) {
    forall i: nat :: i < |t| ==> t[i] != '/' && (t[i] == '~' ==> EscapeAt(t, i))
  }

  predicate EscapeAt(t: string, i: nat) {
    i + 1 < |t| && (t[i + 1] == '0' || t[i + 1] == '1')
  }

  lemma ReferenceTokenPrepend(head: string, t: string)
    requires ReferenceToken(t)
    requires head in {"~0", "~1"} || (|head| == 1 && head[0] != '/' && head[0] != '~')
    ensures ReferenceToken(head + t)
  {
    forall i: nat | i < |head + t| ensures (head + t)[i] != '/' && ((head + t)[i] == '~' ==> EscapeAt(head + t, i)) {
      if i >= |head| {
        assert (head + t)[i] == t[i - |head|];
        assert t[i - |head|] == '~' ==> EscapeAt(t, i - |head|);
      }
    }
  }

  lemma ReferenceTokenDrop(t: string, n: nat)
    requires ReferenceToken(t) && n <= |t|
    ensures ReferenceToken(t[n..])
  {
    forall i: nat | i < |t[n..]| ensures t[n..][i] != '/' && (t[n..][i] == '~' ==> EscapeAt(t[n..], i)) {
      assert t[n..][i] == t[n + i];
      assert t[n + i] == '~' ==> EscapeAt(t, n + i);
    }
  }

  /** The escaped form is a reference token, whatever the input. */
  lemma {:induction false} EscapeIsToken(s: string)
    ensures ReferenceToken(Escape(s))
  {
    if s != [] {
      EscapeIsToken(s[1..]);
      ReferenceTokenPrepend(if s[0] == '/' then "~1" else if s[0] == '~' then "~0" else [s[0]], Escape(s[1..]));
    }
  }

  // ---- Round trips ----

  lemma {:induction false} FirstPassUndoesSlashes(s: string)
    ensures ReplacePair(Escape(s), '1', '/') == ReplaceChar(s, '~', "~0")
  {
    if s != [] {
      var rest := Escape(s[1..]);
      FirstPassUndoesSlashes(s[1..]);
      if s[0] == '/' {
        assert ("~1" + rest)[2..] == rest;
      } else if s[0] == '~' {
        assert ("~0" + rest)[1..] == "0" + rest;
        assert ("0" + rest)[1..] == rest;
      } else {
        assert ([s[0]] + rest)[1..] == rest;
      }
    }
  }

  lemma {:induction false} SecondPassUndoesTildes(s: string)
    ensures ReplacePair(ReplaceChar(s, '~', "~0"), '0', '~') == s
  {
    if s != [] {
      var rest := ReplaceChar(s[1..], '~', "~0");
      SecondPassUndoesTildes(s[1..]);
      assert s == [s[0]] + s[1..];
      if s[0] == '~' {
        assert ("~0" + rest)[2..] == rest;
      } else {
        assert ([s[0]] + rest)[1..] == rest;
      }
    }
  }

  /** Decoding the escaped form restores every string. */
  lemma DecodeOfEscape(s: string)
    ensures Decode(Escape(s)) == s
  {
    FirstPassUndoesSlashes(s);
    SecondPassUndoesTildes(s);
  }

  /** Every reference token is the escaped form of some string. */
  lemma {:induction false} TokenIsEscaped(t: string) returns (s: string)
    requires ReferenceToken(t)
    ensures t == Escape(s)
    decreases |t|
  {
    if t == [] {
      s := "";
    } else if t[0] == '~' {
      assert EscapeAt(t, 0);
      ReferenceTokenDrop(t, 2);
      var rest := TokenIsEscaped(t[2..]);
      s := [if t[1] == '1' then '/' else '~'] + rest;
      assert s[1..] == rest && t == t[..2] + t[2..];
      assert t[..2] == if t[1] == '1' then "~1" else "~0";
    } else {
      ReferenceTokenDrop(t, 1);
      var rest := TokenIsEscaped(t[1..]);
      s := [t[0]] + rest;
      assert s[1..] == rest && t == [t[0]] + t[1..];
    }
  }

  /** A string is restored by decoding and escaping it exactly when it is a reference token. */
  lemma EscapeOfDecode(t: string)
    ensures Escape(Decode(t)) == t <==> ReferenceToken(t)
  {
    if ReferenceToken(t) {
      var s := TokenIsEscaped(t);
      DecodeOfEscape(s);
    }
    EscapeIsToken(Decode(t));
  }

  // ---- Order of the replacements ----

  lemma {:induction false} ReplaceCharConcat(s: string, t: string, c: char, sub: string)
    ensures ReplaceChar(s + t, c, sub) == ReplaceChar(s, c, sub) + ReplaceChar(t, c, sub)
  {
    if s == [] {
      assert s + t == t;
    } else {
      assert (s + t)[1..] == s[1..] + t;
      ReplaceCharConcat(s[1..], t, c, sub);
    }
  }

  /** One pass does what two passes do that escape the tildes first. */
  lemma {:induction false} OnePassIsTildesFirst(s: string)
    ensures Escape(s) == ReplaceChar(ReplaceChar(s, '~', "~0"), '/', "~1")
  {
    if s != [] {
      OnePassIsTildesFirst(s[1..]);
      var head := if s[0] == '~' then "~0" else [s[0]];
      ReplaceCharConcat(head, ReplaceChar(s[1..], '~', "~0"), '/', "~1");
      assert head[1..] == if s[0] == '~' then "0" else "";
      assert s[0] == '~' ==> ReplaceChar(head, '/', "~1") == ['~'] + ReplaceChar("0", '/', "~1");
    }
  }

  /** Escaping the slashes first escapes their tildes again: it agrees only on strings without a slash. */
  lemma {:induction false} SlashesFirstAgreesIff(s: string)
    ensures |ReplaceChar(ReplaceChar(s, '/', "~1"), '~', "~0")| >= |Escape(s)|
    ensures ReplaceChar(ReplaceChar(s, '/', "~1"), '~', "~0") == Escape(s) <==> '/' !in s
  {
    if s != [] {
      SlashesFirstAgreesIff(s[1..]);
      var head := if s[0] == '/' then "~1" else [s[0]];
      var rest := ReplaceChar(s[1..], '/', "~1");
      ReplaceCharConcat(head, rest, '~', "~0");
      assert s == [s[0]] + s[1..];
      if s[0] == '/' {
        assert head[1..] == "1" && "1"[1..] == "";
        assert ReplaceChar(head, '~', "~0") == "~0" + ReplaceChar("1", '~', "~0") == "~01";
      } else {
        assert head[1..] == "";
        var h, x := Escape(head), ReplaceChar(rest, '~', "~0");
        assert ReplaceChar(head, '~', "~0") == h && Escape(s) == h + Escape(s[1..]);
        assert (h + x)[|h|..] == x && (h + Escape(s[1..]))[|h|..] == Escape(s[1..]);
      }
    }
  }

  predicate TildeOneAt(s: string, i: nat) {
    i + 1 < |s| && s[i] == '~' && s[i + 1] == '1'
  }

  lemma {:induction false} TildesUndoneFirst(s: string)
    ensures ReplacePair(Escape(s), '0', '~') == ReplaceChar(s, '/', "~1")
  {
    if s != [] {
      var rest := Escape(s[1..]);
      TildesUndoneFirst(s[1..]);
      if s[0] == '/' {
        assert ("~1" + rest)[1..] == "1" + rest;
        assert ("1" + rest)[1..] == rest;
      } else if s[0] == '~' {
        assert ("~0" + rest)[2..] == rest;
      } else {
        assert ([s[0]] + rest)[1..] == rest;
      }
    }
  }

  /** Undoing the two replacements in the other order takes an escaped tilde before a `1` for a
      slash: it restores exactly the strings without `~1`. */
  lemma OtherOrderRestoresIff(s: string)
    ensures ReplacePair(ReplacePair(Escape(s), '0', '~'), '1', '/') == s <==> forall i: nat :: !TildeOneAt(s, i)
  {
    TildesUndoneFirst(s);
    SlashesAndTildeOnes(s);
    PairFreeIff(s);
  }

  lemma {:induction false} SlashesAndTildeOnes(s: string)
    ensures ReplacePair(ReplaceChar(s, '/', "~1"), '1', '/') == ReplacePair(s, '1', '/')
    decreases |s|
  {
    if s != [] {
      var t := ReplaceChar(s[1..], '/', "~1");
      SlashesAndTildeOnes(s[1..]);
      if s[0] == '/' {
        assert ("~1" + t)[2..] == t;
      } else if TildeOneAt(s, 0) {
        SlashesAndTildeOnes(s[2..]);
        assert s[1..][1..] == s[2..];
        var u := ReplaceChar(s[2..], '/', "~1");
        assert t == "1" + u;
        assert (['~'] + t)[2..] == u;
      } else {
        assert ([s[0]] + t)[1..] == t;
        assert t != [] ==> t[0] == if s[1] == '/' then '~' else s[1];
      }
    }
  }

  lemma {:induction false} PairFreeIff(s: string)
    ensures |ReplacePair(s, '1', '/')| <= |s|
    ensures ReplacePair(s, '1', '/') == s <==> forall i: nat :: !TildeOneAt(s, i)
    decreases |s|
  {
    if s == [] {
    } else if TildeOneAt(s, 0) {
      PairFreeIff(s[2..]);
    } else {
      PairFreeIff(s[1..]);
      assert s == [s[0]] + s[1..];
      forall i: nat ensures TildeOneAt(s[1..], i) == TildeOneAt(s, i + 1) {
      }
      assert (forall i: nat :: !TildeOneAt(s, i)) <==> (forall i: nat :: !TildeOneAt(s[1..], i)) by {
        forall i: nat | forall j: nat :: !TildeOneAt(s[1..], j) ensures !TildeOneAt(s, i) {
          if i > 0 {
            assert TildeOneAt(s[1..], i - 1) == TildeOneAt(s, i);
          }
        }
      }
    }
  }

  // ---- Pointers ----

  /** The pointer whose reference tokens are the escaped `names`. */
  function Pointer(names: seq<string>): string {
    if names == [] then "" else "/" + Escape(names[0]) + Pointer(names[1..])
  }

  function EscapeAll(names: seq<string>): (r: seq<string>)
    ensures |r| == |names| && forall i :: 0 <= i < |names| ==> r[i] == Escape(names[i])
  {
    seq(|names|, i requires 0 <= i < |names| => Escape(names[i]))
  }

  function DecodeAll(tokens: seq<string>): (r: seq<string>)
    ensures |r| == |tokens| && forall i :: 0 <= i < |tokens| ==> r[i] == Decode(tokens[i])
  {
    seq(|tokens|, i requires 0 <= i < |tokens| => Decode(tokens[i]))
  }

  /** The names a pointer refers to, one below the other, starting from the whole document. */
  function Names(pointer: string): Option<seq<string>> {
    if pointer == "" then Some([])
    else if pointer[0] != '/' then None
    else Some(DecodeAll(Split(pointer[1..], '/')))
  }

  lemma {:induction false} PointerIsJoin(names: seq<string>)
    requires names != []
    ensures Pointer(names) == "/" + Join(EscapeAll(names), '/')
  {
    var parts := EscapeAll(names);
    if |names| == 1 {
      assert parts == [Escape(names[0])];
    } else {
      PointerIsJoin(names[1..]);
      assert EscapeAll(names[1..]) == parts[1..];
      assert "/" + Escape(names[0]) + ("/" + Join(parts[1..], '/')) == "/" + (parts[0] + ['/'] + Join(parts[1..], '/'));
    }
  }

  /** A pointer built from escaped names refers to exactly those names, slashes and tildes in
      them or not. */
  lemma NamesOfPointer(names: seq<string>)
    ensures Names(Pointer(names)) == Some(names)
  {
    if names != [] {
      var parts := EscapeAll(names);
      PointerIsJoin(names);
      forall i | 0 <= i < |parts| ensures '/' !in parts[i] {
        EscapeIsToken(names[i]);
      }
      SplitOfJoin(parts, '/');
      assert Pointer(names)[1..] == Join(parts, '/');
      forall i | 0 <= i < |parts| ensures DecodeAll(parts)[i] == names[i] {
        DecodeOfEscape(names[i]);
      }
      assert DecodeAll(parts) == names;
    }
  }

  /** The path of the patch that replaces an annotation. */
  function AnnotationPath(annotation: string): string {
    "/metadata/annotations/" + Escape(annotation)
  }

  lemma {:induction false} EscapePlain(s: string)
    requires '/' !in s && '~' !in s
    ensures Escape(s) == s
  {
    if s != [] {
      EscapePlain(s[1..]);
      assert s == [s[0]] + s[1..];
    }
  }

  lemma PathOfThree(first: string, second: string, name: string)
    requires '/' !in first && '~' !in first && '/' !in second && '~' !in second
    ensures Names(("/" + first) + ("/" + second + ("/" + Escape(name)))) == Some([first, second, name])
  {
    var names := [first, second, name];
    EscapePlain(first);
    EscapePlain(second);
    assert names[1..] == [second, name] && names[1..][1..] == [name] && names[1..][1..][1..] == [];
    assert Pointer(names) == "/" + first + Pointer([second, name]);
    assert Pointer([second, name]) == "/" + second + Pointer([name]);
    assert Pointer([name]) == "/" + Escape(name) + "" == "/" + Escape(name);
    NamesOfPointer(names);
  }

  /** The patch path addresses the named annotation of the object, for every annotation name. */
  lemma AnnotationPathNames(annotation: string)
    ensures Names(AnnotationPath(annotation)) == Some(["metadata", "annotations", annotation])
  {
    PathOfThree("metadata", "annotations", annotation);
    var rest := Escape(annotation);
    assert "/metadata/annotations/" == ("/" + "metadata") + ("/" + "annotations" + "/");
    assert ("/" + "metadata") + ("/" + "annotations" + ("/" + rest)) == AnnotationPath(annotation);
  }
}
