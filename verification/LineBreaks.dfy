/** The PEM and MIME encoders: base64 text cut into lines. */
module LineBreaks {
  import opened Bytes
  import opened Base64

  /** s cut into lines of `distance` characters, a line feed between neighbours. */
  function InsertLinebreaks(s: string, distance: nat): string
    requires distance > 0
  {
    if |s| <= distance then s
    else s[..distance] + ("\n" + InsertLinebreaks(s[distance..], distance))
  }

  /** The pieces of a text with a break put in. */
  lemma Pieces(str: string, start: nat, pos: nat)
    requires start <= pos <= |str|
    ensures var next := str[..pos] + "\n" + str[pos..];
            && next[..pos + 1] == str[..pos] + "\n" && next[pos + 1..] == str[pos..] && |next| == |str| + 1
    ensures str[..pos] == str[..start] + str[start..pos]
    ensures str[start..][..pos - start] == str[start..pos] && str[start..][pos - start..] == str[pos..]
  {}

  /** A full line with text behind it is set apart. */
  lemma FirstLine(line: string, rest: string)
    requires line != "" && rest != ""
    ensures InsertLinebreaks(line + rest, |line|) == line + ("\n" + InsertLinebreaks(rest, |line|))
  {
    assert (line + rest)[..|line|] == line && (line + rest)[|line|..] == rest;
  }

  /** One insertion moves the finished part past one more full line and its break. */
  lemma InsertStep(str: string, start: nat, distance: nat)
    requires distance > 0 && start + distance < |str|
    ensures var pos := start + distance;
            var next := str[..pos] + "\n" + str[pos..];
            && next[..pos + 1] + InsertLinebreaks(next[pos + 1..], distance)
               == str[..start] + InsertLinebreaks(str[start..], distance)
            && |next| == |str| + 1
  {
    var pos := start + distance;
    var before, line, rest := str[..start], str[start..pos], InsertLinebreaks(str[pos..], distance);
    Pieces(str, start, pos);
    FirstLine(line, str[pos..]);
    assert str[start..] == line + str[pos..];
    Assoc(str[..pos], "\n", rest);
    Assoc(before, line, "\n" + rest);
  }

  /** insert_linebreaks, which edits the string in place while its end moves away. */
  method InsertLinebreaksInPlace(s: string, distance: nat) returns (str: string)
    requires distance > 0
    ensures str == InsertLinebreaks(s, distance)
  {
    if s == "" { return ""; }
    str := s;
    var pos := distance;
    while pos < |str|
      invariant distance <= pos <= |str| + distance
      invariant str[..pos - distance] + InsertLinebreaks(str[pos - distance..], distance)
             == InsertLinebreaks(s, distance)
      decreases |str| - pos + distance
    {
      InsertStep(str, pos - distance, distance);
      str := str[..pos] + "\n" + str[pos..];
      pos := pos + distance + 1;
    }
    assert str[..pos - distance] + str[pos - distance..] == str;
  }

  /** The lines of a text, without the line feeds between them. */
  function Lines(s: string): (l: seq<string>)
    ensures l != []
  {
    if s == "" then [""]
    else if s[0] == '\n' then [""] + Lines(s[1..])
    else var rest := Lines(s[1..]); [[s[0]] + rest[0]] + rest[1..]
  }

  lemma {:induction false} LinesOfLine(a: string, rest: string)
    requires '\n' !in a
    ensures Lines(a) == [a]
    ensures Lines(a + ("\n" + rest)) == [a] + Lines(rest)
  {
    if a == "" {
      assert a + ("\n" + rest) == "\n" + rest && ("\n" + rest)[1..] == rest;
    } else {
      LinesOfLine(a[1..], rest);
      assert (a + ("\n" + rest))[1..] == a[1..] + ("\n" + rest);
      assert a == [a[0]] + a[1..];
    }
  }

  lemma {:induction false} RemoveLinebreaksAppend(a: string, b: string)
    ensures RemoveLinebreaks(a + b) == RemoveLinebreaks(a) + RemoveLinebreaks(b)
  {
    if a == "" {
      assert a + b == b;
    } else {
      assert (a + b)[1..] == a[1..] + b;
      RemoveLinebreaksAppend(a[1..], b);
    }
  }

  lemma {:induction false} NothingToRemove(s: string)
    requires '\n' !in s
    ensures RemoveLinebreaks(s) == s
  {
    if s != "" {
      NothingToRemove(s[1..]);
    }
  }

  /** One line and its break, in front of the rest. */
  lemma RemoveOneBreak(line: string, rest: string)
    requires '\n' !in line
    ensures RemoveLinebreaks(line + ("\n" + rest)) == line + RemoveLinebreaks(rest)
  {
    NothingToRemove(line);
    RemoveLinebreaksAppend(line, "\n" + rest);
    assert ("\n" + rest)[1..] == rest;
  }

  /** Removing the inserted breaks gives the text back. */
  lemma {:induction false} RemoveInserted(s: string, distance: nat)
    requires distance > 0 && '\n' !in s
    ensures RemoveLinebreaks(InsertLinebreaks(s, distance)) == s
  {
    if |s| <= distance {
      NothingToRemove(s);
    } else {
      RemoveOneBreak(s[..distance], InsertLinebreaks(s[distance..], distance));
      RemoveInserted(s[distance..], distance);
    }
  }

  /** Every line but the last is full; the last is neither empty nor too long. */
  predicate LinesOf(l: seq<string>, distance: nat) {
    && l != []
    && (forall i :: 0 <= i < |l| - 1 ==> |l[i]| == distance)
    && 1 <= |l[|l| - 1]| <= distance
  }

  lemma LinesOfMore(line: string, l: seq<string>, distance: nat)
    requires |line| == distance && LinesOf(l, distance)
    ensures LinesOf([line] + l, distance) && Concat([line] + l) == line + Concat(l)
  {
    assert ([line] + l)[1..] == l;
  }

  lemma OneMoreLine(line: string, text: string, distance: nat)
    requires '\n' !in line && |line| == distance && LinesOf(Lines(text), distance)
    ensures var l := Lines(line + ("\n" + text));
            LinesOf(l, distance) && Concat(l) == line + Concat(Lines(text))
  {
    LinesOfLine(line, text);
    LinesOfMore(line, Lines(text), distance);
  }

  lemma OnlyLine(line: string, distance: nat)
    requires '\n' !in line && 1 <= |line| <= distance
    ensures LinesOf(Lines(line), distance) && Concat(Lines(line)) == line
  {
    LinesOfLine(line, "");
    assert Concat([line]) == line + Concat<char>([]);
  }

  /** The lines are of the right lengths and make up the text. */
  lemma {:induction false} LineLengths(s: string, distance: nat)
    requires distance > 0 && s != "" && '\n' !in s
    ensures LinesOf(Lines(InsertLinebreaks(s, distance)), distance)
    ensures Concat(Lines(InsertLinebreaks(s, distance))) == s
  {
    if |s| <= distance {
      OnlyLine(s, distance);
    } else {
      LineLengths(s[distance..], distance);
      OneMoreLine(s[..distance], InsertLinebreaks(s[distance..], distance), distance);
      assert s == s[..distance] + s[distance..];
    }
  }

  lemma {:induction false} EncodeHasNoLinebreak(x: seq<byte>, t: Table)
    requires t.Proper()
    ensures '\n' !in Encode(x, t)
  {
    if x != [] {
      assert '\n' !in Quantum(if |x| <= 3 then x else x[..3], t);
      if |x| > 3 {
        EncodeHasNoLinebreak(x[3..], t);
      }
    }
  }

  /** encode_pem and encode_mime differ in the line length only. */
  method EncodeWithLineBreaks(x: seq<byte>, lineLength: nat) returns (str: string)
    requires |x| < TWO_TO_THE_32 && lineLength > 0
    ensures str == InsertLinebreaks(Encode(x, TableOf(false)), lineLength)
  {
    var s := Base64Encode(x, false);
    str := InsertLinebreaksInPlace(s, lineLength);
  }

  /** Line-broken text reads back, for any line length and so for both PEM and MIME. */
  lemma LineBrokenRoundTrip(x: seq<byte>, lineLength: nat)
    requires lineLength > 0
    ensures Decode(RemoveLinebreaks(InsertLinebreaks(Encode(x, TableOf(false)), lineLength))) == Ok(x)
    ensures x != [] ==>
              var l := Lines(InsertLinebreaks(Encode(x, TableOf(false)), lineLength));
              LinesOf(l, lineLength) && Concat(l) == Encode(x, TableOf(false))
  {
    TableIsProper(false);
    EncodeHasNoLinebreak(x, TableOf(false));
    RemoveInserted(Encode(x, TableOf(false)), lineLength);
    DecodeEncode(x, TableOf(false));
    if x != [] {
      LineLengths(Encode(x, TableOf(false)), lineLength);
    }
  }

  /** base64_encode_pem, lines of 64 characters. */
  method Base64EncodePem(x: seq<byte>) returns (str: string)
    requires |x| < TWO_TO_THE_32
    ensures Decode(RemoveLinebreaks(str)) == Ok(x)
    ensures x != [] ==> LinesOf(Lines(str), 64) && Concat(Lines(str)) == Encode(x, TableOf(false))
  {
    str := EncodeWithLineBreaks(x, 64);
    LineBrokenRoundTrip(x, 64);
  }

  /** base64_encode_mime, lines of 76 characters. */
  method Base64EncodeMime(x: seq<byte>) returns (str: string)
    requires |x| < TWO_TO_THE_32
    ensures Decode(RemoveLinebreaks(str)) == Ok(x)
    ensures x != [] ==> LinesOf(Lines(str), 76) && Concat(Lines(str)) == Encode(x, TableOf(false))
  {
    str := EncodeWithLineBreaks(x, 76);
    LineBrokenRoundTrip(x, 76);
  }
}
