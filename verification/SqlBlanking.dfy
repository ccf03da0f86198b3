/**
 Blanking comments and string literals out of a query before its shape is read. The
 scanner is related to the tokens it is meant to recognise: one lemma per kind of token
 says what it makes of that token, whatever follows.
 */
module SqlBlanking {

  datatype Mode = Code | LineComment | BlockComment | Literal

  const QUOTE: char := '\''
  const NEWLINE: char := '\n'

  predicate Pair(sql: string, a: char, b: char) {
    |sql| >= 2 && sql[0] == a && sql[1] == b
  }

  /** One step of the scanner: how many characters it reads, what it writes for them, and how it goes on. */
  datatype Step = Step(taken: nat, written: string, next: Mode)

  function StepOf(sql: string, mode: Mode): (step: Step)
    requires sql != ""
    ensures 1 <= step.taken <= |sql| && |step.written| == step.taken
  {
    match mode
    case LineComment =>
      if sql[0] == NEWLINE then Step(1, [NEWLINE], Code) else Step(1, " ", LineComment)
    case BlockComment =>
      if Pair(sql, '*', '/') then Step(2, "  ", Code) else Step(1, " ", BlockComment)
    case Literal =>
      if Pair(sql, QUOTE, QUOTE) then Step(2, "  ", Literal)
      else Step(1, " ", if sql[0] == QUOTE then Code else Literal)
    case Code =>
      if Pair(sql, '-', '-') then Step(2, "  ", LineComment)
      else if Pair(sql, '/', '*') then Step(2, "  ", BlockComment)
      else if sql[0] == QUOTE then Step(1, " ", Literal)
      else Step(1, [sql[0]], Code)
  }

  /** What the rest of the text becomes when it is read in the given mode. */
  function Blank(sql: string, mode: Mode): (r: string)
    ensures |r| == |sql|
    decreases |sql|
  {
    if sql == "" then ""
    else
      var step := StepOf(sql, mode);
      step.written + Blank(sql[step.taken..], step.next)
  }

  /** Whether the i-th character is read as code. */
  predicate IsCode(sql: string, mode: Mode, i: nat)
    requires i < |sql|
    decreases |sql|
  {
    var step := StepOf(sql, mode);
    if i < step.taken then mode == Code && step.next == Code else IsCode(sql[step.taken..], step.next, i - step.taken)
  }

  /** Reading on from `i`, what is written so far becomes the whole. */
  ghost predicate Scanned(sql: string, i: nat, mode: Mode, written: string, whole: string) {
    i <= |sql| && whole == written + Blank(sql[i..], mode)
  }

  lemma StepAt(sql: string, i: nat, mode: Mode, written: string, whole: string, step: Step)
    requires i < |sql| && Scanned(sql, i, mode, written, whole) && step == StepOf(sql[i..], mode)
    ensures Scanned(sql, i + step.taken, step.next, written + step.written, whole)
  {
    var rest := Blank(sql[i + step.taken..], step.next);
    assert sql[i..][step.taken..] == sql[i + step.taken..];
    assert written + (step.written + rest) == (written + step.written) + rest;
  }

  lemma ScanBounds(sql: string, mode: Mode, written: string, whole: string)
    ensures Scanned(sql, 0, mode, "", Blank(sql, mode))
    ensures Scanned(sql, |sql|, mode, written, whole) ==> written == whole
  {
    assert sql[0..] == sql && sql[|sql|..] == "";
  }

  /** The scanner's three flags, at most one of which is set. */
  datatype Flags = Flags(inLineComment: bool, inBlockComment: bool, inString: bool) {
    predicate Valid() {
      !(inLineComment && inBlockComment) && !(inLineComment && inString) && !(inBlockComment && inString)
    }

    function Mode(): Mode {
      if inLineComment then LineComment else if inBlockComment then BlockComment else if inString then Literal else Code
    }
  }

  /** One turn of the scanning loop: what is written, where reading goes on, and the flags. */
  method ReadOne(sql: string, i: nat, flags: Flags) returns (written: string, next: nat, after: Flags)
    requires i < |sql| && flags.Valid()
    ensures after.Valid() && i < next <= |sql|
    ensures StepOf(sql[i..], flags.Mode()) == Step(next - i, written, after.Mode())
  {
    var ch := sql[i];
    var nxt := if i + 1 < |sql| then [sql[i + 1]] else "";
    after := flags;
    if flags.inLineComment {
      if ch == NEWLINE {
        return [ch], i + 1, flags.(inLineComment := false);
      }
      return " ", i + 1, flags;
    }
    if flags.inBlockComment {
      if ch == '*' && nxt == "/" {
        return "  ", i + 2, flags.(inBlockComment := false);
      }
      return " ", i + 1, flags;
    }
    if flags.inString {
      if ch == QUOTE {
        if nxt == [QUOTE] {
          return "  ", i + 2, flags;
        }
        after := flags.(inString := false);
      }
      return " ", i + 1, after;
    }
    if ch == '-' && nxt == "-" {
      return "  ", i + 2, flags.(inLineComment := true);
    }
    if ch == '/' && nxt == "*" {
      return "  ", i + 2, flags.(inBlockComment := true);
    }
    if ch == QUOTE {
      return " ", i + 1, flags.(inString := true);
    }
    return [ch], i + 1, flags;
  }

  /** The scanning loop. */
  method Scan(sql: string) returns (r: string)
    ensures r == Blank(sql, Code)
  {
    ScanBounds(sql, Code, "", Blank(sql, Code));
    r := ScanFrom(sql, Blank(sql, Code));
  }

  method ScanFrom(sql: string, ghost whole: string) returns (r: string)
    requires Scanned(sql, 0, Code, "", whole)
    ensures r == whole
  {
    r := "";
    var i := 0;
    var flags := Flags(false, false, false);
    while i < |sql|
      invariant flags.Valid() && i <= |sql| && Scanned(sql, i, flags.Mode(), r, whole)
    {
      r, i, flags := ScanOne(sql, i, flags, r, whole);
    }
    ScanBounds(sql, flags.Mode(), r, whole);
  }

  method ScanOne(sql: string, i: nat, flags: Flags, r: string, ghost whole: string) returns (more: string, next: nat, after: Flags)
    requires i < |sql| && flags.Valid() && Scanned(sql, i, flags.Mode(), r, whole)
    ensures after.Valid() && i < next <= |sql| && Scanned(sql, next, after.Mode(), more, whole)
  {
    var written;
    written, next, after := ReadOne(sql, i, flags);
    StepAt(sql, i, flags.Mode(), r, whole, Step(next - i, written, after.Mode()));
    more := r + written;
  }

  /** The blanked text has the length of the original, opens nothing, and is left alone by a second pass. */
  method Stringless(sql: string) returns (r: string)
    ensures r == Blank(sql, Code)
    ensures |r| == |sql| && Clean(r) && Blank(r, Code) == r
  {
    r := Scan(sql);
    BlankIsClean(sql, Code);
    CleanIsFixed(r);
  }

  // --- position, cleanliness, idempotence -----------------------------------------------------------

  /** Nothing left in the text opens a literal or a comment. */
  ghost predicate Clean(s: string) {
    && (forall i :: 0 <= i < |s| ==> s[i] != QUOTE)
    && (forall i, j :: 0 <= i && j == i + 1 < |s| ==> !(s[i] == '-' && s[j] == '-') && !(s[i] == '/' && s[j] == '*'))
  }

  /** Code characters stay where they are; everything else becomes a space, except line ends. */
  lemma {:induction false} CodeKeepsPosition(sql: string, mode: Mode, i: nat)
    requires i < |sql|
    ensures if IsCode(sql, mode, i) then Blank(sql, mode)[i] == sql[i]
            else Blank(sql, mode)[i] == ' ' || Blank(sql, mode)[i] == sql[i] == NEWLINE
    decreases |sql|
  {
    var step := StepOf(sql, mode);
    if i >= step.taken {
      CodeKeepsPosition(sql[step.taken..], step.next, i - step.taken);
    }
  }

  /** The first character written is a space, a line end, or the first character itself read as code. */
  lemma FirstChar(sql: string, mode: Mode)
    requires sql != ""
    ensures Blank(sql, mode)[0] in {' ', NEWLINE} || Blank(sql, mode)[0] == sql[0] != QUOTE
  {
  }

  lemma {:induction false} BlankIsClean(sql: string, mode: Mode)
    ensures Clean(Blank(sql, mode))
    decreases |sql|
  {
    if sql != "" {
      var step := StepOf(sql, mode);
      var rest := sql[step.taken..];
      BlankIsClean(rest, step.next);
      if rest != "" {
        FirstChar(rest, step.next);
      }
    }
  }

  lemma {:induction false} CleanIsFixed(s: string)
    requires Clean(s)
    ensures Blank(s, Code) == s
  {
    if s != "" {
      CleanIsFixed(s[1..]);
      assert s == [s[0]] + s[1..];
    }
  }

  // --- one token at a time -------------------------------------------------------------------------

  function Spaces(n: nat): string {
    seq(n, i => ' ')
  }

  lemma MoreSpaces(k: nat, n: nat, rest: string)
    ensures Spaces(k) + (Spaces(n) + rest) == Spaces(k + n) + rest
  {
  }

  lemma OpensLiteral(tail: string)
    ensures Blank([QUOTE] + tail, Code) == Spaces(1) + Blank(tail, Literal)
  {
    var whole := [QUOTE] + tail;
    assert whole[1..] == tail && StepOf(whole, Code) == Step(1, " ", Literal);
    assert Spaces(1) == " ";
  }

  lemma OpensLineComment(tail: string)
    ensures Blank("--" + tail, Code) == Spaces(2) + Blank(tail, LineComment)
  {
    var whole := "--" + tail;
    assert whole[2..] == tail && StepOf(whole, Code) == Step(2, "  ", LineComment);
    assert Spaces(2) == "  ";
  }

  lemma OpensBlockComment(tail: string)
    ensures Blank("/*" + tail, Code) == Spaces(2) + Blank(tail, BlockComment)
  {
    var whole := "/*" + tail;
    assert whole[2..] == tail && StepOf(whole, Code) == Step(2, "  ", BlockComment);
    assert Spaces(2) == "  ";
  }

  /** The body of a literal, with its quotes doubled. */
  function Escape(text: string): string {
    if text == "" then "" else (if text[0] == QUOTE then [QUOTE, QUOTE] else [text[0]]) + Escape(text[1..])
  }

  lemma {:induction false} InsideLiteral(text: string, rest: string)
    requires rest == "" || rest[0] != QUOTE
    ensures Blank(Escape(text) + ([QUOTE] + rest), Literal) == Spaces(|Escape(text)| + 1) + Blank(rest, Code)
    decreases |text|
  {
    var whole := Escape(text) + ([QUOTE] + rest);
    if text == "" {
      assert whole == [QUOTE] + rest && whole[1..] == rest;
      assert Spaces(1) == " ";
    } else {
      InsideLiteral(text[1..], rest);
      var k := if text[0] == QUOTE then 2 else 1;
      EscapeStep(text, [QUOTE] + rest);
      assert Blank(whole, Literal) == Spaces(k) + Blank(whole[k..], Literal) by {
        assert Spaces(1) == " " && Spaces(2) == "  ";
      }
      MoreSpaces(k, |Escape(text[1..])| + 1, Blank(rest, Code));
    }
  }

  lemma EscapeStep(text: string, rest: string)
    requires text != "" && rest != ""
    ensures var whole := Escape(text) + rest;
      if text[0] == QUOTE then Pair(whole, QUOTE, QUOTE) && whole[2..] == Escape(text[1..]) + rest
      else whole[0] != QUOTE && whole[1..] == Escape(text[1..]) + rest
  {
  }

  /** A string literal, quotes doubled inside it, is blanked as a whole and code resumes behind it. */
  lemma LiteralToken(text: string, rest: string)
    requires rest == "" || rest[0] != QUOTE
    ensures Blank([QUOTE] + (Escape(text) + ([QUOTE] + rest)), Code) == Spaces(|Escape(text)| + 2) + Blank(rest, Code)
  {
    var inside, behind := Escape(text) + ([QUOTE] + rest), Blank(rest, Code);
    InsideLiteral(text, rest);
    OpensLiteral(inside);
    assert Blank(inside, Literal) == Spaces(|Escape(text)| + 1) + behind;
    MoreSpaces(1, |Escape(text)| + 1, behind);
  }

  lemma {:induction false} InsideLineComment(text: string, rest: string)
    requires NEWLINE !in text
    ensures Blank(text + ([NEWLINE] + rest), LineComment) == Spaces(|text|) + ([NEWLINE] + Blank(rest, Code))
  {
    var whole := text + ([NEWLINE] + rest);
    if text == "" {
      assert whole == [NEWLINE] + rest && whole[1..] == rest;
    } else {
      InsideLineComment(text[1..], rest);
      assert whole[0] == text[0] && whole[1..] == text[1..] + ([NEWLINE] + rest);
      assert Spaces(1) == " ";
      assert Blank(whole, LineComment) == Spaces(1) + Blank(whole[1..], LineComment);
      MoreSpaces(1, |text| - 1, [NEWLINE] + Blank(rest, Code));
    }
  }

  /** A line comment is blanked up to its line end, which stays. */
  lemma LineCommentToken(text: string, rest: string)
    requires NEWLINE !in text
    ensures Blank("--" + (text + ([NEWLINE] + rest)), Code) == Spaces(|text| + 2) + ([NEWLINE] + Blank(rest, Code))
  {
    InsideLineComment(text, rest);
    OpensLineComment(text + ([NEWLINE] + rest));
    MoreSpaces(2, |text|, [NEWLINE] + Blank(rest, Code));
  }

  ghost predicate NoClose(text: string) {
    forall i, j :: 0 <= i && j == i + 1 < |text| ==> !(text[i] == '*' && text[j] == '/')
  }

  lemma CommentCloses(rest: string)
    ensures Blank("*/" + rest, BlockComment) == Spaces(2) + Blank(rest, Code)
  {
    assert ("*/" + rest)[2..] == rest;
    assert Spaces(1) == " " && Spaces(2) == "  ";
  }

  lemma CommentGoesOn(text: string, rest: string)
    requires NoClose(text) && text != ""
    ensures Blank(text + ("*/" + rest), BlockComment) == Spaces(1) + Blank(text[1..] + ("*/" + rest), BlockComment)
  {
    var whole := text + ("*/" + rest);
    assert whole[0] == text[0] && whole[1..] == text[1..] + ("*/" + rest);
    assert whole[1] == if |text| > 1 then text[1] else '*';
    assert Spaces(1) == " ";
  }

  lemma {:induction false} InsideBlockComment(text: string, rest: string)
    requires NoClose(text)
    ensures Blank(text + ("*/" + rest), BlockComment) == Spaces(|text| + 2) + Blank(rest, Code)
  {
    if text == "" {
      assert text + ("*/" + rest) == "*/" + rest;
      CommentCloses(rest);
    } else {
      CommentGoesOn(text, rest);
      InsideBlockComment(text[1..], rest);
      MoreSpaces(1, |text| + 1, Blank(rest, Code));
    }
  }

  /** A block comment is blanked up to its first close. */
  lemma BlockCommentToken(text: string, rest: string)
    requires NoClose(text)
    ensures Blank("/*" + (text + ("*/" + rest)), Code) == Spaces(|text| + 4) + Blank(rest, Code)
  {
    InsideBlockComment(text, rest);
    OpensBlockComment(text + ("*/" + rest));
    MoreSpaces(2, |text| + 2, Blank(rest, Code));
  }
}
