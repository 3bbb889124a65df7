/** JSON Pointer handling of the collaboration service (sections 3 to 5 of RFC 6901). */
module Pointer {
  import opened Wrappers
  import opened Text

  const MAX_POINTER_LENGTH := 1024
  const MAX_TOKENS := 64

  /** A '~' that is not followed by '0' or '1'. */
  predicate HasBadEscape(token: string) {
    exists i :: 0 <= i < |token| && token[i] == '~' && (i + 1 == |token| || token[i + 1] !in "01")
  }

  function DecodeToken(token: string): Option<string> {
    if HasBadEscape(token) then None
    else Some(ReplaceAll(ReplaceAll(token, "~1", "/"), "~0", "~"))
  }

  function EncodeToken(token: string): string {
    ReplaceAll(ReplaceAll(token, "~", "~0"), "/", "~1")
  }

  predicate ValidPointerText(path: string) {
    0 < |path| <= MAX_POINTER_LENGTH && path[0] == '/'
  }

  function DecodeEach(encoded: seq<string>): Option<seq<string>> {
    if encoded == [] then Some([])
    else
      var first :- DecodeToken(encoded[0]);
      var rest :- DecodeEach(encoded[1..]);
      Some([first] + rest)
  }

  function DecodeTokens(encoded: seq<string>): Option<seq<string>> {
    if |encoded| > MAX_TOKENS then None else DecodeEach(encoded)
  }

  function DecodePointer(path: string): Option<seq<string>> {
    if !ValidPointerText(path) then None else DecodeTokens(Split(path[1..], '/'))
  }

  function EncodeEach(tokens: seq<string>): seq<string> {
    seq(|tokens|, i requires 0 <= i < |tokens| => EncodeToken(tokens[i]))
  }

  function EncodePointer(tokens: seq<string>): string {
    "/" + Join(EncodeEach(tokens), '/')
  }

  /** Compares the tokens the two pointers share; a pointer that does not decode overlaps everything. */
  predicate PointersOverlap(left: string, right: string) {
    match (DecodePointer(left), DecodePointer(right))
    case (Some(l), Some(r)) =>
      var shared := if |l| < |r| then |l| else |r|;
      forall i :: 0 <= i < shared ==> l[i] == r[i]
    case _ => true
  }

  predicate IsArrayIndex(token: string) {
    token == "-" || (token != "" && forall i :: 0 <= i < |token| ==> '0' <= token[i] <= '9')
  }

  function ArrayParent(path: string): Option<string> {
    match DecodePointer(path)
    case None => Some(path)
    case Some(tokens) =>
      if tokens == [] || !IsArrayIndex(tokens[|tokens| - 1]) then None
      else Some(EncodePointer(tokens[..|tokens| - 1]))
  }

  /** An operation may not write the document revision or any member named "id". */
  predicate TargetsFrameworkOwnedIdentity(path: string) {
    match DecodePointer(path)
    case None => true
    case Some(tokens) => path == "/revision" || (tokens != [] && tokens[|tokens| - 1] == "id")
  }

  // ---------------------------------------------------------------------------------------------
  // The reference codec of section 4 of RFC 6901: one pass over the token.

  function UnescapeOnce(token: string): string {
    if token == "" then ""
    else if token[0] == '~' && |token| > 1 && token[1] == '1' then "/" + UnescapeOnce(token[2..])
    else if token[0] == '~' && |token| > 1 && token[1] == '0' then "~" + UnescapeOnce(token[2..])
    else [token[0]] + UnescapeOnce(token[1..])
  }

  function EscapeOnce(token: string): string {
    if token == "" then ""
    else (if token[0] == '~' then "~0" else if token[0] == '/' then "~1" else [token[0]]) + EscapeOnce(token[1..])
  }

  lemma BadEscapeStep(token: string)
    requires token != "" && !HasBadEscape(token)
    ensures token[0] == '~' ==> |token| > 1 && token[1] in "01" && !HasBadEscape(token[2..])
    ensures token[0] != '~' ==> !HasBadEscape(token[1..])
  {
    var k := if token[0] == '~' then 2 else 1;
    if token[0] == '~' {
      assert 0 <= 0 < |token|;
    }
    forall i | 0 <= i < |token[k..]| && token[k..][i] == '~'
      ensures i + 1 < |token[k..]| && token[k..][i + 1] in "01"
    {
      assert token[i + k] == '~';
    }
  }

  /** The two `replaceAll` passes of the decoder never disturb each other. */
  lemma {:induction false} TwoPassDecodeIsOnePass(token: string)
    requires !HasBadEscape(token)
    ensures ReplaceAll(ReplaceAll(token, "~1", "/"), "~0", "~") == UnescapeOnce(token)
  {
    if token != "" {
      BadEscapeStep(token);
      if token[0] != '~' {
        TwoPassDecodeIsOnePass(token[1..]);
        DecodePlain(token[0], token[1..]);
        assert token == [token[0]] + token[1..];
      } else {
        TwoPassDecodeIsOnePass(token[2..]);
        DecodeEscaped(token[2..]);
        assert token == (if token[1] == '1' then "~1" else "~0") + token[2..];
      }
    }
  }

  lemma DecodePlain(c: char, rest: string)
    requires c != '~'
    ensures ReplaceAll(ReplaceAll([c] + rest, "~1", "/"), "~0", "~") == [c] + ReplaceAll(ReplaceAll(rest, "~1", "/"), "~0", "~")
  {
    ReplaceLater(c, rest, "~1", "/");
    ReplaceLater(c, ReplaceAll(rest, "~1", "/"), "~0", "~");
  }

  /** A pass passes over a pair that only shares its first character with the pattern. */
  lemma PassOver(t: char, o: char, z: char, rest: string, replacement: string)
    requires z != o && z != t
    ensures ReplaceAll([t, z] + rest, [t, o], replacement) == [t, z] + ReplaceAll(rest, [t, o], replacement)
  {
    assert [t, z] + rest == [t] + ([z] + rest);
    ReplaceLater(t, [z] + rest, [t, o], replacement);
    ReplaceLater(z, rest, [t, o], replacement);
  }

  lemma DecodeEscaped(rest: string)
    ensures ReplaceAll(ReplaceAll("~1" + rest, "~1", "/"), "~0", "~") == "/" + ReplaceAll(ReplaceAll(rest, "~1", "/"), "~0", "~")
    ensures ReplaceAll(ReplaceAll("~0" + rest, "~1", "/"), "~0", "~") == "~" + ReplaceAll(ReplaceAll(rest, "~1", "/"), "~0", "~")
  {
    var once := ReplaceAll(rest, "~1", "/");
    ReplaceHere("~1", rest, "/");
    ReplaceLater('/', once, "~0", "~");
    PassOver('~', '1', '0', rest, "/");
    ReplaceHere("~0", once, "~");
  }

  lemma {:induction false} TwoPassEncodeIsOnePass(token: string)
    ensures EncodeToken(token) == EscapeOnce(token)
  {
    if token != "" {
      TwoPassEncodeIsOnePass(token[1..]);
      EncodeOne(token[0], token[1..]);
      assert token == [token[0]] + token[1..];
    }
  }

  lemma EncodeOne(c: char, rest: string)
    ensures EncodeToken([c] + rest) == (if c == '~' then "~0" else if c == '/' then "~1" else [c]) + EncodeToken(rest)
  {
    var once := ReplaceAll(rest, "~", "~0");
    if c == '~' {
      ReplaceHere("~", rest, "~0");
      assert "~0" + once == ['~'] + ("0" + once);
      ReplaceLater('~', "0" + once, "/", "~1");
      ReplaceLater('0', once, "/", "~1");
    } else {
      ReplaceLater(c, rest, "~", "~0");
      if c == '/' {
        ReplaceHere("/", once, "~1");
      } else {
        ReplaceLater(c, once, "/", "~1");
      }
    }
  }

  lemma {:induction false} UnescapeEscape(token: string)
    ensures !HasBadEscape(EscapeOnce(token)) && '/' !in EscapeOnce(token)
    ensures UnescapeOnce(EscapeOnce(token)) == token
  {
    if token != "" {
      UnescapeEscape(token[1..]);
      var rest := EscapeOnce(token[1..]);
      var escaped := EscapeOnce(token);
      var k := |escaped| - |rest|;
      assert escaped[k..] == rest;
      forall i | 0 <= i < |escaped| && escaped[i] == '~'
        ensures i + 1 < |escaped| && escaped[i + 1] in "01"
      {
        if i >= k {
          assert rest[i - k] == '~';
        }
      }
    }
  }

  lemma {:induction false} EscapeUnescape(token: string)
    requires !HasBadEscape(token) && '/' !in token
    ensures EscapeOnce(UnescapeOnce(token)) == token
  {
    if token != "" {
      BadEscapeStep(token);
      if token[0] == '~' {
        EscapeUnescape(token[2..]);
        assert UnescapeOnce(token)[1..] == UnescapeOnce(token[2..]);
        assert token == token[..2] + token[2..];
      } else {
        EscapeUnescape(token[1..]);
        assert UnescapeOnce(token)[1..] == UnescapeOnce(token[1..]);
      }
    }
  }

  /** The encoder is inverted by the decoder on every token, and its output holds no separator. */
  lemma TokenRoundTrip(token: string)
    ensures DecodeToken(EncodeToken(token)) == Some(token)
    ensures '/' !in EncodeToken(token)
  {
    TwoPassEncodeIsOnePass(token);
    UnescapeEscape(token);
    TwoPassDecodeIsOnePass(EncodeToken(token));
  }

  /** Every separator-free text the decoder accepts is the canonical encoding of its token. */
  lemma TokenCanonical(text: string)
    requires '/' !in text && DecodeToken(text).Some?
    ensures EncodeToken(DecodeToken(text).value) == text
  {
    TwoPassDecodeIsOnePass(text);
    EscapeUnescape(text);
    TwoPassEncodeIsOnePass(UnescapeOnce(text));
  }

  // ---------------------------------------------------------------------------------------------
  // Lifting to whole pointers.

  lemma {:induction false} DecodeEachShape(encoded: seq<string>)
    ensures DecodeEach(encoded).Some? <==> forall k :: 0 <= k < |encoded| ==> DecodeToken(encoded[k]).Some?
    ensures DecodeEach(encoded).Some? ==>
              && |DecodeEach(encoded).value| == |encoded|
              && forall k :: 0 <= k < |encoded| ==> DecodeToken(encoded[k]) == Some(DecodeEach(encoded).value[k])
  {
    if encoded != [] {
      DecodeEachShape(encoded[1..]);
      var rest := encoded[1..];
      assert forall k :: 0 <= k < |rest| ==> rest[k] == encoded[k + 1];
      if DecodeEach(encoded).Some? {
        var all := DecodeEach(encoded).value;
        forall k | 0 <= k < |encoded| ensures DecodeToken(encoded[k]) == Some(all[k]) {
          if k > 0 {
            assert rest[k - 1] == encoded[k];
          }
        }
      } else if DecodeToken(encoded[0]).Some? {
        var k :| 0 <= k < |rest| && DecodeToken(rest[k]).None?;
        assert DecodeToken(encoded[k + 1]).None?;
      }
    }
  }

  /** Encoding undoes decoding: an accepted pointer is the only text for its tokens. */
  lemma EncodeDecodePointer(path: string)
    requires DecodePointer(path).Some?
    ensures 1 <= |DecodePointer(path).value| <= MAX_TOKENS
    ensures EncodePointer(DecodePointer(path).value) == path
  {
    var encoded := Split(path[1..], '/');
    SplitThenJoin(path[1..], '/');
    DecodeEachShape(encoded);
    var tokens := DecodePointer(path).value;
    forall k | 0 <= k < |tokens| ensures EncodeEach(tokens)[k] == encoded[k] {
      TokenCanonical(encoded[k]);
    }
    assert EncodeEach(tokens) == encoded;
    assert path == "/" + path[1..];
  }

  /** Decoding undoes encoding, for every token list within the two limits. */
  lemma DecodeEncodePointer(tokens: seq<string>)
    requires 1 <= |tokens| <= MAX_TOKENS
    requires |EncodePointer(tokens)| <= MAX_POINTER_LENGTH
    ensures DecodePointer(EncodePointer(tokens)) == Some(tokens)
  {
    var encoded := EncodeEach(tokens);
    forall k | 0 <= k < |tokens| ensures '/' !in encoded[k] && DecodeToken(encoded[k]) == Some(tokens[k]) {
      TokenRoundTrip(tokens[k]);
    }
    JoinThenSplit(encoded, '/');
    assert EncodePointer(tokens)[1..] == Join(encoded, '/');
    DecodeEachShape(encoded);
    assert DecodeEach(encoded).value == tokens;
  }

  /** Two pointers overlap exactly when one fails to decode or one token list is a prefix of the other. */
  lemma OverlapIsPrefix(left: string, right: string)
    ensures PointersOverlap(left, right) <==>
            (DecodePointer(left).Some? && DecodePointer(right).Some? ==>
               || DecodePointer(left).value <= DecodePointer(right).value
               || DecodePointer(right).value <= DecodePointer(left).value)
  {
    if DecodePointer(left).Some? && DecodePointer(right).Some? {
      var l, r := DecodePointer(left).value, DecodePointer(right).value;
      if PointersOverlap(left, right) {
        if |l| <= |r| {
          assert l == r[..|l|];
        } else {
          assert r == l[..|r|];
        }
      }
    }
  }

  lemma {:induction false} JoinPrefix(parts: seq<string>, more: seq<string>, c: char)
    requires parts != []
    ensures Join(parts, c) <= Join(parts + more, c)
    ensures more != [] ==> |Join(parts, c)| < |Join(parts + more, c)|
  {
    if |parts| == 1 {
      if more != [] {
        assert (parts + more)[1..] == more;
      } else {
        assert parts + more == parts;
      }
    } else {
      JoinPrefix(parts[1..], more, c);
      assert (parts + more)[1..] == parts[1..] + more;
    }
  }

  /** A token prefix is a text prefix; hence the longer of two overlapping pointers is the deeper one. */
  lemma TokenPrefixIsTextPrefix(left: string, right: string)
    requires DecodePointer(left).Some? && DecodePointer(right).Some?
    requires DecodePointer(left).value <= DecodePointer(right).value
    ensures left <= right
    ensures left == right || |left| < |right|
  {
    EncodeDecodePointer(left);
    EncodeDecodePointer(right);
    var l, r := DecodePointer(left).value, DecodePointer(right).value;
    assert r == l + r[|l|..];
    assert EncodeEach(r) == EncodeEach(l) + EncodeEach(r[|l|..]);
    JoinPrefix(EncodeEach(l), EncodeEach(r[|l|..]), '/');
    if r[|l|..] == [] {
      assert l == r;
    }
  }

  lemma ParentDecodes(tokens: seq<string>)
    requires 2 <= |tokens| <= MAX_TOKENS
    requires |EncodePointer(tokens)| <= MAX_POINTER_LENGTH
    ensures DecodePointer(EncodePointer(tokens[..|tokens| - 1])) == Some(tokens[..|tokens| - 1])
  {
    var parent, last := tokens[..|tokens| - 1], [tokens[|tokens| - 1]];
    assert EncodeEach(tokens) == EncodeEach(parent) + EncodeEach(last);
    JoinPrefix(EncodeEach(parent), EncodeEach(last), '/');
    DecodeEncodePointer(parent);
  }

  lemma RootTextIsEmptyMember()
    ensures EncodePointer([]) == "/"
    ensures DecodePointer("/") == Some([""])
  {
    assert EncodeEach([]) == [];
    assert "/"[1..] == "";
    assert Split("", '/') == [""];
    assert !HasBadEscape("");
    assert DecodeToken("") == Some("");
    DecodeEachShape([""]);
    assert DecodeEach([""]).value == [""];
  }

  /** With two or more tokens the array parent is the pointer to the enclosing array.
      With a single token it is the text "/", which addresses the member named "" and not the root. */
  lemma ArrayParentMeaning(path: string, tokens: seq<string>)
    requires DecodePointer(path) == Some(tokens)
    ensures 1 <= |tokens| && (ArrayParent(path).Some? <==> IsArrayIndex(tokens[|tokens| - 1]))
    ensures ArrayParent(path).Some? && |tokens| >= 2 ==>
              DecodePointer(ArrayParent(path).value) == Some(tokens[..|tokens| - 1])
    ensures ArrayParent(path).Some? && |tokens| == 1 ==> DecodePointer(ArrayParent(path).value) == Some([""])
  {
    EncodeDecodePointer(path);
    if |tokens| >= 2 {
      ParentDecodes(tokens);
    } else {
      RootTextIsEmptyMember();
      assert tokens[..|tokens| - 1] == [];
    }
  }
}
