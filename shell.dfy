/** The command line of kern/src/shell.rs: splitting a line into arguments
    (`Command::parse` over a `StackVec`), the byte-by-byte line editor inside
    `shell`, and the choice of what to do with a parsed command. Console
    output is not modelled; what the shell would print is named by a `Reply`. */
module Shell {
  import opened Common
  import opened StackVec

  const CR: byte := 13
  const LF: byte := 10
  const BS: byte := 8
  const DEL: byte := 127
  /** `MAX_LINE_LENGTH`: the size of a line's storage. */
  const MAX_LINE_LENGTH: nat := 512
  /** The size of the argument buffer `[""; 64]`. */
  const MAX_ARGS: nat := 64

  // ---------------------------------------------------------------------
  // Splitting a line into arguments

  /** `s.split(' ')`: the pieces between the spaces of `s`, empty pieces
      included, so there is always one piece more than there are spaces. */
  function Split(s: string): (pieces: seq<string>)
    ensures |pieces| >= 1
    ensures forall k :: 0 <= k < |pieces| ==> ' ' !in pieces[k]
    decreases |s|
  {
    if s == [] then [[]]
    else
      var rest := Split(s[1..]);
      if s[0] == ' ' then [[]] + rest else [[s[0]] + rest[0]] + rest[1..]
  }

  /** The pieces again, with one space between each two of them. */
  function Join(pieces: seq<string>): string
  {
    if |pieces| <= 1 then (if pieces == [] then [] else pieces[0])
    else pieces[0] + [' '] + Join(pieces[1..])
  }

  /** `.filter(|a| !a.is_empty())`. */
  function NonEmpty(pieces: seq<string>): seq<string>
  {
    if pieces == [] then []
    else (if pieces[0] != [] then [pieces[0]] else []) + NonEmpty(pieces[1..])
  }

  /** The arguments `parse` pushes, in order. */
  function Tokens(s: string): seq<string>
  {
    NonEmpty(Split(s))
  }

  /** All pieces, one after the other, with nothing between them. */
  function Concat(pieces: seq<string>): string
  {
    if pieces == [] then [] else pieces[0] + Concat(pieces[1..])
  }

  /** `s` with every space removed. */
  function RemoveSpaces(s: string): string
  {
    if s == [] then [] else (if s[0] == ' ' then [] else [s[0]]) + RemoveSpaces(s[1..])
  }

  /** Joining the pieces of a split gives back the line. */
  lemma {:induction false} JoinSplit(s: string)
    ensures Join(Split(s)) == s
    decreases |s|
  {
    if s != [] {
      var rest := Split(s[1..]);
      JoinSplit(s[1..]);
      if s[0] == ' ' {
        assert s == [' '] + s[1..];
      } else if |rest| == 1 {
        assert s == [s[0]] + s[1..];
      } else {
        assert rest == [rest[0]] + rest[1..];
        assert ([s[0]] + rest[0]) + [' '] + Join(rest[1..]) == [s[0]] + (rest[0] + [' '] + Join(rest[1..]));
        assert s == [s[0]] + s[1..];
      }
    }
  }

  /** Splitting joined pieces that contain no space gives back the pieces. */
  lemma {:induction false} SplitJoin(pieces: seq<string>)
    requires |pieces| >= 1 && forall k :: 0 <= k < |pieces| ==> ' ' !in pieces[k]
    ensures Split(Join(pieces)) == pieces
    decreases |pieces|, |pieces[0]|
  {
    var p := pieces[0];
    if p == [] {
      if |pieces| > 1 {
        assert Join(pieces) == [' '] + Join(pieces[1..]);
        SplitJoin(pieces[1..]);
        assert Join(pieces)[1..] == Join(pieces[1..]);
        assert pieces == [[]] + pieces[1..];
      }
    } else {
      var shorter := [p[1..]] + pieces[1..];
      assert forall k :: 0 <= k < |shorter| ==> ' ' !in shorter[k] by {
        assert forall c :: c in p[1..] ==> c in p;
      }
      SplitJoin(shorter);
      assert Join(pieces) == [p[0]] + Join(shorter) by {
        if |pieces| > 1 {
          assert p == [p[0]] + p[1..];
          assert Join(shorter) == p[1..] + [' '] + Join(pieces[1..]);
        } else {
          assert p == [p[0]] + p[1..];
        }
      }
      assert Join(pieces)[1..] == Join(shorter);
      assert p[0] != ' ' by {
        assert p[0] in p;
      }
      assert [p[0]] + p[1..] == p;
    }
  }

  lemma {:induction false} ConcatAppend(a: seq<string>, b: seq<string>)
    ensures Concat(a + b) == Concat(a) + Concat(b)
    decreases |a|
  {
    if a == [] {
      assert a + b == b;
    } else {
      ConcatAppend(a[1..], b);
      assert (a + b)[1..] == a[1..] + b;
    }
  }

  lemma {:induction false} NonEmptyAppend(a: seq<string>, b: seq<string>)
    ensures NonEmpty(a + b) == NonEmpty(a) + NonEmpty(b)
    decreases |a|
  {
    if a == [] {
      assert a + b == b;
    } else {
      NonEmptyAppend(a[1..], b);
      assert (a + b)[1..] == a[1..] + b;
    }
  }

  /** Dropping the empty pieces drops no character. */
  lemma {:induction false} ConcatNonEmpty(pieces: seq<string>)
    ensures Concat(NonEmpty(pieces)) == Concat(pieces)
    decreases |pieces|
  {
    if pieces != [] {
      ConcatNonEmpty(pieces[1..]);
      var head := if pieces[0] != [] then [pieces[0]] else [];
      ConcatAppend(head, NonEmpty(pieces[1..]));
    }
  }

  /** The pieces of a split hold exactly the characters of the line that are
      not spaces, in order. */
  lemma {:induction false} ConcatSplit(s: string)
    ensures Concat(Split(s)) == RemoveSpaces(s)
    decreases |s|
  {
    if s != [] {
      var rest := Split(s[1..]);
      ConcatSplit(s[1..]);
      if s[0] != ' ' {
        assert rest == [rest[0]] + rest[1..];
        assert Concat(rest) == rest[0] + Concat(rest[1..]);
      }
    }
  }

  /** Every filtered piece is non-empty and comes from the split. */
  lemma {:induction false} NonEmptyPieces(pieces: seq<string>)
    ensures forall k :: 0 <= k < |NonEmpty(pieces)| ==> NonEmpty(pieces)[k] != [] && NonEmpty(pieces)[k] in pieces
    ensures |NonEmpty(pieces)| <= |pieces|
    decreases |pieces|
  {
    if pieces != [] {
      NonEmptyPieces(pieces[1..]);
    }
  }

  /** The arguments of a line: non-empty, free of spaces, and together
      exactly the line's characters other than spaces, in order. */
  lemma TokensAreWords(s: string)
    ensures forall k :: 0 <= k < |Tokens(s)| ==> Tokens(s)[k] != [] && ' ' !in Tokens(s)[k]
    ensures Concat(Tokens(s)) == RemoveSpaces(s)
  {
    NonEmptyPieces(Split(s));
    ConcatNonEmpty(Split(s));
    ConcatSplit(s);
  }

  lemma {:induction false} RemoveSpacesEmpty(s: string)
    ensures RemoveSpaces(s) == [] <==> forall i :: 0 <= i < |s| ==> s[i] == ' '
    decreases |s|
  {
    if s != [] {
      RemoveSpacesEmpty(s[1..]);
      assert forall i :: 1 <= i < |s| ==> s[i] == s[1..][i - 1];
    }
  }

  /** A line has no argument exactly when it holds nothing but spaces. */
  lemma NoTokens(s: string)
    ensures Tokens(s) == [] <==> forall i :: 0 <= i < |s| ==> s[i] == ' '
  {
    TokensAreWords(s);
    RemoveSpacesEmpty(s);
    if Tokens(s) != [] {
      assert Concat(Tokens(s)) == Tokens(s)[0] + Concat(Tokens(s)[1..]);
    }
  }

  /** The arguments among the first `i + 1` pieces. */
  lemma NonEmptyNext(pieces: seq<string>, i: nat)
    requires i < |pieces|
    ensures NonEmpty(pieces[..i + 1]) == NonEmpty(pieces[..i]) + (if pieces[i] != [] then [pieces[i]] else [])
  {
    assert pieces[..i + 1] == pieces[..i] + [pieces[i]];
    NonEmptyAppend(pieces[..i], [pieces[i]]);
  }

  /** A prefix of the pieces has no more arguments than all of them. */
  lemma NonEmptyPrefix(pieces: seq<string>, i: nat)
    requires i <= |pieces|
    ensures |NonEmpty(pieces[..i])| <= |NonEmpty(pieces)|
  {
    assert pieces == pieces[..i] + pieces[i..];
    NonEmptyAppend(pieces[..i], pieces[i..]);
  }

  // ---------------------------------------------------------------------
  // Command::parse and Command::path (shell.rs lines 23-60)

  datatype ParseError = Empty | TooManyArgs

  /** `Command`: the arguments, over the caller's buffer. */
  datatype Command = Command(args: StackVec<string>)

  /** `Command::parse(s, buf)`: pushes every non-empty piece of `s` into a
      `StackVec` over `buf`, failing with `TooManyArgs` on the first push
      that does not fit and with `Empty` when there was nothing to push. */
  method Parse(s: string, buf: array<string>) returns (r: Result<Command, ParseError>)
    modifies buf
    ensures r == Err(TooManyArgs) <==> |Tokens(s)| > buf.Length
    ensures r == Err(Empty) <==> Tokens(s) == []
    ensures r.Ok? ==>
      (fresh(r.value.args) && r.value.args.Valid() && r.value.args.storage == buf
       && r.value.args.AsSlice() == Tokens(s) && r.value.args.Len() > 0)
  {
    var pieces := Split(s);
    var args := new StackVec.New(buf);
    for i := 0 to |pieces|
      invariant fresh(args) && args.Valid() && args.storage == buf
      invariant args.AsSlice() == NonEmpty(pieces[..i])
    {
      NonEmptyNext(pieces, i);
      if pieces[i] != [] {
        var pushed := args.Push(pieces[i]);
        if pushed.Err? {
          NonEmptyPrefix(pieces, i + 1);
          return Err(TooManyArgs);
        }
      }
    }
    assert pieces[..|pieces|] == pieces;
    if args.IsEmpty() {
      return Err(Empty);
    }
    return Ok(Command(args));
  }

  /** `Command::path`: the first argument, which every parsed command has. */
  function Path(c: Command): (p: string)
    reads c.args, c.args.storage
    requires c.args.Valid() && c.args.Len() > 0
    ensures p == c.args.AsSlice()[0]
  {
    c.args.Index(0)
  }

  // ---------------------------------------------------------------------
  // The line editor (shell.rs lines 72-104)

  /** A byte that ends the line. */
  predicate IsEnd(b: byte)
  {
    b == CR || b == LF
  }

  /** A byte the editor would store: ASCII and neither a line end nor a
      backspace. */
  predicate Stored(b: byte)
  {
    b < 128 && !IsEnd(b) && b != BS && b != DEL
  }

  /** What one byte other than CR or LF does to the line: backspace and
      delete remove the last byte if there is one, an ASCII byte is added
      while the line is shorter than `MAX_LINE_LENGTH`, and any other byte
      (which rings the bell) changes nothing. */
  function Edit(line: seq<byte>, b: byte): seq<byte>
    requires !IsEnd(b)
  {
    if b == BS || b == DEL then (if line == [] then line else line[..|line| - 1])
    else if b < 128 && |line| < MAX_LINE_LENGTH then line + [b]
    else line
  }

  /** The line after the editor has read `input`, up to its first CR or LF. */
  function EditAll(line: seq<byte>, input: seq<byte>): seq<byte>
    decreases |input|
  {
    if input == [] || IsEnd(input[0]) then line else EditAll(Edit(line, input[0]), input[1..])
  }

  /** The bytes the editor takes from `input` for one line: up to and
      including the first CR or LF, or all of it when there is none. */
  function Consumed(input: seq<byte>): (n: nat)
    ensures n <= |input|
    ensures forall i :: 0 <= i < n - 1 ==> !IsEnd(input[i])
    ensures n < |input| ==> 0 < n && IsEnd(input[n - 1])
    decreases |input|
  {
    if input == [] then 0 else if IsEnd(input[0]) then 1 else 1 + Consumed(input[1..])
  }

  /** A backspace right after a byte was added takes it away again. */
  lemma BackspaceUndoesAdd(line: seq<byte>, b: byte)
    requires |line| < MAX_LINE_LENGTH && Stored(b)
    ensures Edit(Edit(line, b), BS) == line && Edit(Edit(line, b), DEL) == line
  {
    assert (line + [b])[..|line|] == line;
  }

  /** A byte that is not ASCII never changes the line, and neither does an
      ASCII byte once the line is full. */
  lemma EditIgnores(line: seq<byte>, b: byte)
    requires !IsEnd(b) && b != BS && b != DEL && (b >= 128 || |line| >= MAX_LINE_LENGTH)
    ensures Edit(line, b) == line
  {
  }

  /** The line never grows past `MAX_LINE_LENGTH`, and holds only stored bytes. */
  lemma {:induction false} EditAllKeepsLine(line: seq<byte>, input: seq<byte>)
    requires |line| <= MAX_LINE_LENGTH && forall i :: 0 <= i < |line| ==> Stored(line[i])
    ensures |EditAll(line, input)| <= MAX_LINE_LENGTH
    ensures forall i :: 0 <= i < |EditAll(line, input)| ==> Stored(EditAll(line, input)[i])
    decreases |input|
  {
    if input != [] && !IsEnd(input[0]) {
      EditAllKeepsLine(Edit(line, input[0]), input[1..]);
    }
  }

  /** Bytes after the line end are not part of the line. */
  lemma {:induction false} EditAllStopsAtEnd(line: seq<byte>, input: seq<byte>, more: seq<byte>)
    requires 0 < Consumed(input) && IsEnd(input[Consumed(input) - 1])
    ensures EditAll(line, input + more) == EditAll(line, input)
    decreases |input|
  {
    assert (input + more)[0] == input[0];
    if !IsEnd(input[0]) {
      assert (input + more)[1..] == input[1..] + more;
      EditAllStopsAtEnd(Edit(line, input[0]), input[1..], more);
    }
  }

  /** One turn of the byte-handling loop of `shell` for a byte `b` other
      than CR or LF, on the line and its length `idx`. */
  method EditByte(line: StackVec<byte>, idx: nat, b: byte) returns (idx': nat)
    requires line.Valid() && line.Capacity() == MAX_LINE_LENGTH && idx == line.Len() && !IsEnd(b)
    modifies line, line.storage
    ensures line.Valid() && idx' == line.Len()
    ensures line.AsSlice() == Edit(old(line.AsSlice()), b)
  {
    idx' := idx;
    if b == BS || b == DEL {
      if idx != 0 {
        idx' := idx - 1;
        var popped := line.Pop();
      }
    } else if b < 128 && idx < MAX_LINE_LENGTH {
      var pushed := line.Push(b);
      if pushed.Ok? {
        idx' := idx + 1;
      }
    }
  }

  /** The byte-handling loop of `shell`: reads bytes until CR or LF into a
      `StackVec` over fresh 512-byte storage, with `idx` counting the bytes
      in the line. Returns the line and how many input bytes it took. */
  method ReadLine(input: seq<byte>) returns (text: seq<byte>, used: nat)
    ensures text == EditAll([], input) && used == Consumed(input)
  {
    var storage := new byte[MAX_LINE_LENGTH](_ => 0);
    var line := new StackVec.New(storage);
    var idx: nat := 0;
    var i := 0;
    while i < |input| && !IsEnd(input[i])
      invariant i <= |input| && fresh(line) && fresh(storage) && line.Valid() && line.storage == storage
      invariant idx == line.Len()
      invariant EditAll(line.AsSlice(), input[i..]) == EditAll([], input)
      invariant Consumed(input) == i + Consumed(input[i..])
      decreases |input| - i
    {
      assert input[i..][1..] == input[i + 1..];
      idx := EditByte(line, idx, input[i]);
      i := i + 1;
    }
    used := if i < |input| then i + 1 else i;
    text := line.AsSlice();
  }

  // ---------------------------------------------------------------------
  // Dispatch (shell.rs lines 105-129)

  /** What the shell answers to a line. */
  datatype Reply =
    | Silent                // an empty line
    | Echo(words: seq<string>)
    | Welcome
    | Unknown(path: string)
    | TooManyArguments
    | ParseFailure

  /** `from_utf8` on an all-ASCII line: each byte is one character. */
  function Decode(text: seq<byte>): (s: string)
    ensures |s| == |text| && forall i :: 0 <= i < |s| ==> s[i] as int == text[i]
  {
    seq(|text|, i requires 0 <= i < |text| => text[i] as char)
  }

  /** The answer to `text`, in terms of its arguments. */
  function Respond(text: seq<byte>): Reply
  {
    var args := Tokens(Decode(text));
    if text == [] then Silent
    else if |args| > MAX_ARGS then TooManyArguments
    else if args == [] then ParseFailure
    else if args[0] == "echo" then Echo(args[1..])
    else if args[0] == "welcome" then Welcome
    else Unknown(args[0])
  }

  /** The handling of one line after it was read: parse it into a buffer
      of `MAX_ARGS` arguments and act on the command's path. */
  method RunLine(text: seq<byte>) returns (reply: Reply)
    requires forall i :: 0 <= i < |text| ==> text[i] < 128
    ensures reply == Respond(text)
  {
    if |text| == 0 {
      return Silent;
    }
    var buf := new string[MAX_ARGS](_ => "");
    var parsed := Parse(Decode(text), buf);
    match parsed {
      case Ok(command) =>
        var args := command.args.AsSlice();
        if Path(command) == "echo" {
          reply := Echo(args[1..]);
        } else if Path(command) == "welcome" {
          reply := Welcome;
        } else {
          reply := Unknown(Path(command));
        }
      case Err(TooManyArgs) =>
        reply := TooManyArguments;
      case Err(Empty) =>
        reply := ParseFailure;
    }
  }

  /** One turn of the shell's outer loop: edit a line from `input`, then
      act on it. The editor stores only ASCII bytes, so the line always
      decodes. */
  method HandleInput(input: seq<byte>) returns (reply: Reply, used: nat)
    ensures reply == Respond(EditAll([], input)) && used == Consumed(input)
  {
    var text;
    text, used := ReadLine(input);
    EditAllKeepsLine([], input);
    reply := RunLine(text);
  }

  /** `echo` answers with the remaining arguments; the command word itself
      is not echoed. */
  lemma EchoDropsCommand(text: seq<byte>, words: seq<string>)
    requires Respond(text) == Echo(words)
    ensures Tokens(Decode(text)) == ["echo"] + words
  {
  }

  /** A non-empty line of nothing but spaces cannot be parsed. */
  lemma BlankLineFails(text: seq<byte>)
    requires text != [] && forall i :: 0 <= i < |text| ==> text[i] == ' ' as int
    ensures Respond(text) == ParseFailure
  {
    NoTokens(Decode(text));
  }

  /** More than `MAX_ARGS` arguments are refused before the command is looked at. */
  lemma TooManyWordsRefused(text: seq<byte>)
    requires |Tokens(Decode(text))| > MAX_ARGS
    ensures Respond(text) == TooManyArguments
  {
  }
}
