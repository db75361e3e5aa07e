/**
 * The high-score file: one line holding the scores as decimal numbers
 * separated by single spaces. Writing renders each score as Java's `"" + n`
 * does; reading splits the line as `String.split(" ")` does and parses each
 * piece as `Integer.parseInt` does, into a table of five entries. The file
 * itself is not modelled: what the reader got back (a line, no line, or the
 * exception it threw) is a parameter, and what the writer produces is text.
 */
module ScoreFile {
  import opened Wrappers

  /** The range of a Java `int`. */
  const IntMin: int := -0x8000_0000
  const IntMax: int := 0x7fff_ffff

  /** `readHighScoresFromFile` allocates `new int[5]`. */
  const HighScoreCount: nat := 5

  /** What the first `readLine` of the score file gave. */
  datatype FileRead =
    | FileNotFound   // the FileReader constructor threw FileNotFoundException
    | ReadFailed     // readLine threw IOException
    | NoLine         // readLine returned null: the file is empty
    | Line(text: string)

  /** What `recordScore` writes to the score file, and what it returns. */
  datatype Recorded = Recorded(written: string, isHighScore: bool)

  /** An exception `readHighScoresFromFile` does not catch. */
  datatype Crash =
    | NumberFormat      // a piece is not a decimal int (NumberFormatException)
    | IndexOutOfBounds  // more than five pieces (ArrayIndexOutOfBoundsException)
    | NullLine          // split called on null (NullPointerException)

  predicate IsDigit(ch: char) {
    '0' <= ch <= '9'
  }

  predicate AllDigits(s: string) {
    forall i :: 0 <= i < |s| ==> IsDigit(s[i])
  }

  function DigitChar(d: int): (ch: char)
    requires 0 <= d < 10
    ensures IsDigit(ch)
  {
    ('0' as int + d) as char
  }

  function DigitValue(ch: char): (d: int)
    requires IsDigit(ch)
    ensures 0 <= d < 10
  {
    ch as int - '0' as int
  }

  /** The decimal digits of n, most significant first, no leading zeros. */
  function Digits(n: nat): (s: string)
    ensures |s| > 0 && AllDigits(s)
  {
    if n < 10 then [DigitChar(n)] else Digits(n / 10) + [DigitChar(n % 10)]
  }

  /** The number a string of decimal digits denotes. */
  function Value(s: string): (v: nat)
    requires AllDigits(s)
  {
    if |s| == 0 then 0 else 10 * Value(s[..|s| - 1]) + DigitValue(s[|s| - 1])
  }

  /** Digits and Value are inverse. */
  lemma {:induction false} DigitsValue(n: nat)
    ensures Value(Digits(n)) == n
  {
    if n >= 10 {
      DigitsValue(n / 10);
      var s := Digits(n);
      assert s[..|s| - 1] == Digits(n / 10);
    }
  }

  /** `"" + n`: an optional minus sign, then the digits. */
  function ScoreText(n: int): (s: string)
    ensures |s| > 0 && ' ' !in s
  {
    if n < 0 then "-" + Digits(-n) else Digits(n)
  }

  /** `Integer.parseInt` on ASCII text: an optional sign, at least one digit, a value in int range. */
  function ParseInt(token: string): (r: Result<int, Crash>)
    ensures r.Ok? ==> IntMin <= r.value <= IntMax
  {
    var signed := |token| > 0 && (token[0] == '-' || token[0] == '+');
    var digits := if signed then token[1..] else token;
    if |digits| == 0 || !AllDigits(digits) then Err(NumberFormat)
    else
      var magnitude: int := Value(digits);
      var v := if signed && token[0] == '-' then -magnitude else magnitude;
      if IntMin <= v <= IntMax then Ok(v) else Err(NumberFormat)
  }

  /** Parsing what `"" + n` writes gives n back, for every int. */
  lemma ParseScoreText(n: int)
    requires IntMin <= n <= IntMax
    ensures ParseInt(ScoreText(n)) == Ok(n)
  {
    var text := ScoreText(n);
    if n < 0 {
      DigitsValue(-n);
      assert text[0] == '-' && text[1..] == Digits(-n);
    } else {
      DigitsValue(n);
      assert IsDigit(text[0]);
    }
  }

  /** The pieces between the spaces of s, empty ones included. */
  function Pieces(s: string): (pieces: seq<string>)
    ensures |pieces| > 0
  {
    if |s| == 0 then [""]
    else
      var rest := Pieces(s[1..]);
      if s[0] == ' ' then [""] + rest else [[s[0]] + rest[0]] + rest[1..]
  }

  /** `String.split` drops the empty pieces at the end, and only those. */
  function DropTrailingEmpty(pieces: seq<string>): (kept: seq<string>)
    ensures |kept| <= |pieces| && kept == pieces[..|kept|]
    ensures kept != [] ==> kept[|kept| - 1] != ""
    ensures forall i :: |kept| <= i < |pieces| ==> pieces[i] == ""
  {
    if |pieces| > 0 && pieces[|pieces| - 1] == "" then DropTrailingEmpty(pieces[..|pieces| - 1]) else pieces
  }

  /** `line.split(" ")`: the whole line when it has no space, else the pieces less the trailing empty ones. */
  function Split(line: string): seq<string> {
    if ' ' !in line then [line] else DropTrailingEmpty(Pieces(line))
  }

  /** The scores as `recordScore` writes them: rendered, separated by single spaces. */
  function ScoreLine(scores: seq<int>): (line: string)
    ensures |scores| > 1 ==> ' ' in line
  {
    if |scores| == 0 then ""
    else if |scores| == 1 then ScoreText(scores[0])
    else
      var line := ScoreText(scores[0]) + " " + ScoreLine(scores[1..]);
      assert line[|ScoreText(scores[0])|] == ' ';
      line
  }

  function Tokens(scores: seq<int>): (tokens: seq<string>)
    ensures |tokens| == |scores|
    ensures forall i :: 0 <= i < |scores| ==> tokens[i] == ScoreText(scores[i])
  {
    if |scores| == 0 then [] else [ScoreText(scores[0])] + Tokens(scores[1..])
  }

  /** A piece with no space in it, then a space, is split off whole. */
  lemma {:induction false} PiecesAfterWord(word: string, rest: string)
    requires ' ' !in word
    ensures Pieces(word + " " + rest) == [word] + Pieces(rest)
    ensures Pieces(word) == [word]
  {
    if |word| > 0 {
      PiecesAfterWord(word[1..], rest);
      assert (word + " " + rest)[1..] == word[1..] + " " + rest;
      assert [word[0]] + word[1..] == word;
    } else {
      assert (word + " " + rest)[1..] == rest;
    }
  }

  /** The pieces of a written score line are the rendered scores. */
  lemma {:induction false} PiecesOfScoreLine(scores: seq<int>)
    requires |scores| > 0
    ensures Pieces(ScoreLine(scores)) == Tokens(scores)
  {
    if |scores| == 1 {
      PiecesAfterWord(ScoreText(scores[0]), "");
    } else {
      PiecesOfScoreLine(scores[1..]);
      PiecesAfterWord(ScoreText(scores[0]), ScoreLine(scores[1..]));
    }
  }

  /** Splitting a written score line gives back the rendered scores. */
  lemma SplitScoreLine(scores: seq<int>)
    requires |scores| > 0
    ensures Split(ScoreLine(scores)) == Tokens(scores)
  {
    PiecesOfScoreLine(scores);
    var tokens := Tokens(scores);
    assert tokens[|tokens| - 1] != "";
  }

  /** Appending a score to a non-empty line adds a space and its text. */
  lemma {:induction false} ScoreLineAppend(scores: seq<int>, x: int)
    requires |scores| > 0
    ensures ScoreLine(scores + [x]) == ScoreLine(scores) + " " + ScoreText(x)
  {
    var head := ScoreText(scores[0]);
    assert (scores + [x])[1..] == scores[1..] + [x];
    if |scores| > 1 {
      ScoreLineAppend(scores[1..], x);
      calc {
        ScoreLine(scores + [x]);
        head + " " + ScoreLine(scores[1..] + [x]);
        head + " " + (ScoreLine(scores[1..]) + " " + ScoreText(x));
        (head + " " + ScoreLine(scores[1..])) + " " + ScoreText(x);
      }
    } else {
      assert ScoreLine(scores + [x]) == head + " " + ScoreLine([x]);
    }
  }

  /**
   * The loop of `readHighScoresFromFile` from piece i on, over the table so
   * far: each piece is parsed, then stored at its index, which fails past the
   * end of the table.
   */
  function StoreScores(pieces: seq<string>, i: nat, table: seq<int>): (r: Result<seq<int>, Crash>)
    requires i <= |pieces|
    ensures r.Ok? ==> |r.value| == |table|
    decreases |pieces| - i
  {
    if i == |pieces| then Ok(table)
    else
      match ParseInt(pieces[i])
      case Err(e) => Err(e)
      case Ok(v) => if i < |table| then StoreScores(pieces, i + 1, table[i := v]) else Err(IndexOutOfBounds)
  }

  function Zeros(): (table: seq<int>)
    ensures |table| == HighScoreCount
  {
    [0, 0, 0, 0, 0]
  }

  /** `readHighScoresFromFile`: five zeros when the file cannot be read, else the parsed line. */
  function ReadScores(read: FileRead): (r: Result<seq<int>, Crash>)
    ensures r.Ok? ==> |r.value| == HighScoreCount
  {
    match read
    case FileNotFound => Ok(Zeros())
    case ReadFailed => Ok(Zeros())
    case NoLine => Err(NullLine)
    case Line(text) => StoreScores(Split(text), 0, Zeros())
  }

  /** Storing the rendered scores over a table that agrees with them so far gives the scores. */
  lemma {:induction false} StoreRenderedScores(scores: seq<int>, i: nat, table: seq<int>)
    requires i <= |scores| == |table|
    requires forall k :: 0 <= k < |scores| ==> IntMin <= scores[k] <= IntMax
    requires table[..i] == scores[..i]
    ensures StoreScores(Tokens(scores), i, table) == Ok(scores)
    decreases |scores| - i
  {
    if i < |scores| {
      ParseScoreText(scores[i]);
      var next := table[i := scores[i]];
      assert next[..i + 1] == scores[..i + 1];
      StoreRenderedScores(scores, i + 1, next);
    } else {
      assert table == table[..i] && scores == scores[..i];
    }
  }

  /** Five int scores written by `recordScore` read back as the same five scores. */
  lemma ReadWrittenScores(scores: seq<int>)
    requires |scores| == HighScoreCount
    requires forall k :: 0 <= k < |scores| ==> IntMin <= scores[k] <= IntMax
    ensures ReadScores(Line(ScoreLine(scores))) == Ok(scores)
  {
    SplitScoreLine(scores);
    StoreRenderedScores(scores, 0, Zeros());
  }

  /** `readHighScoresFromFile`: fill a table of five from the pieces of the line. */
  method ReadHighScoresFromFile(read: FileRead) returns (r: Result<seq<int>, Crash>)
    ensures r == ReadScores(read)
  {
    if read.FileNotFound? || read.ReadFailed? {
      return Ok([0, 0, 0, 0, 0]);
    }
    if read.NoLine? {
      return Err(NullLine);
    }
    var highScores := new int[HighScoreCount](_ => 0);
    var scoreList := Split(read.text);
    assert highScores[..] == Zeros();
    for scoreIndex := 0 to |scoreList|
      invariant StoreScores(scoreList, scoreIndex, highScores[..]) == ReadScores(read)
    {
      var parsed := ParseInt(scoreList[scoreIndex]);
      if parsed.Err? {
        return Err(parsed.error);
      }
      if scoreIndex >= highScores.Length {
        return Err(IndexOutOfBounds);
      }
      highScores[scoreIndex] := parsed.value;
    }
    return Ok(highScores[..]);
  }

  /** The writing loop of `recordScore`: each score, with a space after all but the last. */
  method WriteScores(updatedScores: array<int>) returns (text: string)
    ensures text == ScoreLine(updatedScores[..])
  {
    text := "";
    for scoreIndex := 0 to updatedScores.Length
      invariant scoreIndex == 0 ==> text == ""
      invariant 0 < scoreIndex ==> text == ScoreLine(updatedScores[..scoreIndex]) + if scoreIndex < updatedScores.Length then " " else ""
    {
      ghost var written := updatedScores[..scoreIndex];
      text := text + ScoreText(updatedScores[scoreIndex]);
      if scoreIndex > 0 {
        ScoreLineAppend(written, updatedScores[scoreIndex]);
      }
      assert written + [updatedScores[scoreIndex]] == updatedScores[..scoreIndex + 1];
      if scoreIndex < updatedScores.Length - 1 {
        text := text + " ";
      }
    }
    assert updatedScores[..updatedScores.Length] == updatedScores[..];
  }
}
