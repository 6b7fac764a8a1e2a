/** The command line that the dump script builds from the blocks it found. */
module Command {
  import opened Bytes
  import opened DumpParser

  datatype Option<T> = None | Some(value: T)

  const NAMES: seq<string> := ["-gx", "-gy", "-hx", "-hy", "-COMx", "-COMy", "-Px", "-Py", "-v", "-w"]
  const NONCE_PART: string := "8899AABBCCDDEEFF0011223344556677"
  const NONCE: string := "0X" + NONCE_PART + NONCE_PART + NONCE_PART + NONCE_PART
  const BASE_DOCKER: string := "docker run -it -v " + "$(pwd)/puf_vm1/scripts/" + "proofs/:/mnt "
  const BASE_SAGE: string := "sagemath/sagemath sage " + "/mnt/proof_verifier_" + "calc.sage \\"
  const BASE: string := BASE_DOCKER + BASE_SAGE

  function Argument(name: string, block: string): string {
    name + " 0x" + block + " \\"
  }

  /** str.join for line ends. */
  function JoinLines(lines: seq<string>): string
    requires lines != []
  {
    if |lines| == 1 then lines[0] else lines[0] + ['\n'] + JoinLines(lines[1..])
  }

  /** build_command; None stands for leaving the program with an error. */
  method BuildCommand(blocks: seq<string>) returns (cmd: Option<string>)
    ensures cmd == if |blocks| < |NAMES| then None else Some(JoinLines(CommandLines(blocks)))
  {
    if |blocks| < |NAMES| {
      return None;
    }
    var lines: seq<string> := [];
    var i := 0;
    while i < |NAMES| && i < |blocks|
      invariant 0 <= i <= |NAMES| && lines == Arguments(blocks, i)
    {
      lines := lines + [Argument(NAMES[i], blocks[i])];
      i := i + 1;
    }
    lines := lines + ["-n " + NONCE];
    assert CommandLines(blocks)[1..] == lines;
    return Some(BASE + ['\n'] + JoinLines(lines));
  }

  function Arguments(blocks: seq<string>, n: nat): (lines: seq<string>)
    requires n <= |blocks| && n <= |NAMES|
    ensures |lines| == n && forall i | 0 <= i < n :: lines[i] == Argument(NAMES[i], blocks[i])
  {
    seq(n, i requires 0 <= i < n => Argument(NAMES[i], blocks[i]))
  }

  function CommandLines(blocks: seq<string>): (lines: seq<string>)
    requires |NAMES| <= |blocks|
    ensures |lines| == |NAMES| + 2
  {
    [BASE] + Arguments(blocks, |NAMES|) + ["-n " + NONCE]
  }

  // ---------------------------------------------------------------- reading a command back

  /** The lines of a text, the first of them begun with w. */
  function SplitFrom(w: string, s: string): (lines: seq<string>)
    ensures lines != []
    decreases |s|
  {
    if s == [] then [w]
    else if s[0] == '\n' then [w] + SplitFrom([], s[1..])
    else SplitFrom(w + [s[0]], s[1..])
  }

  lemma {:induction false} SplitOne(w: string, line: string, more: string)
    requires '\n' !in line
    ensures SplitFrom(w, line + more) == SplitFrom(w + line, more)
    decreases |line|
  {
    var s := line + more;
    if line == [] {
      assert s == more && w + line == w;
    } else {
      assert s[1..] == line[1..] + more;
      SplitOne(w + [line[0]], line[1..], more);
      assert w + [line[0]] + line[1..] == w + line;
    }
  }

  lemma {:induction false} SplitJoined(lines: seq<string>)
    requires lines != [] && forall i | 0 <= i < |lines| :: '\n' !in lines[i]
    ensures SplitFrom([], JoinLines(lines)) == lines
    decreases |lines|
  {
    var first := lines[0];
    assert [] + first == first;
    if |lines| == 1 {
      SplitOne([], first, []);
      assert first + [] == first;
    } else {
      var more := JoinLines(lines[1..]);
      SplitJoined(lines[1..]);
      SplitOne([], first, ['\n'] + more);
      assert (['\n'] + more)[1..] == more;
      assert first + ['\n'] + more == first + (['\n'] + more);
    }
  }

  /** The block given for parameter i of a command. */
  function BlockOf(cmd: string, i: nat): Option<string>
    requires i < |NAMES|
  {
    var lines := SplitFrom([], cmd);
    if i + 1 < |lines| && |lines[i + 1]| >= |NAMES[i]| + 5
    then Some(lines[i + 1][|NAMES[i]| + 3..|lines[i + 1]| - 2])
    else None
  }

  lemma OneLine(name: string, block: string)
    requires '\n' !in name && '\n' !in block
    ensures '\n' !in Argument(name, block)
    ensures |Argument(name, block)| == |name| + |block| + 5
    ensures Argument(name, block)[|name| + 3..|name| + 3 + |block|] == block
  {
  }

  lemma DockerPlain()
    ensures '\n' !in BASE_DOCKER
  {
    assert '\n' !in "docker run -it -v ";
    assert '\n' !in "$(pwd)/puf_vm1/scripts/";
    assert '\n' !in "proofs/:/mnt ";
  }

  lemma SagePlain()
    ensures '\n' !in BASE_SAGE
  {
    assert '\n' !in "sagemath/sagemath sage ";
    assert '\n' !in "/mnt/proof_verifier_";
    assert '\n' !in "calc.sage \\";
  }

  lemma NoncePlain()
    ensures '\n' !in "-n " + NONCE
  {
    assert '\n' !in "-n " && '\n' !in "0X";
    assert '\n' !in NONCE_PART;
  }

  lemma NamesPlain(i: nat)
    requires i < |NAMES|
    ensures '\n' !in NAMES[i]
  {
  }

  /** Every parameter of the command is its own block, whatever the blocks are,
      as long as they are single lines; blocks after the tenth play no part. */
  lemma CommandReadBack(blocks: seq<string>, cmd: string, i: nat)
    requires |NAMES| <= |blocks| && cmd == JoinLines(CommandLines(blocks)) && i < |NAMES|
    requires forall k | 0 <= k < |blocks| :: '\n' !in blocks[k]
    ensures BlockOf(cmd, i) == Some(blocks[i])
  {
    var lines := CommandLines(blocks);
    forall k | 0 <= k < |lines|
      ensures '\n' !in lines[k]
    {
      DockerPlain();
      SagePlain();
      NoncePlain();
      if 1 <= k <= |NAMES| {
        assert lines[k] == Argument(NAMES[k - 1], blocks[k - 1]);
        NamesPlain(k - 1);
        OneLine(NAMES[k - 1], blocks[k - 1]);
      }
    }
    SplitJoined(lines);
    assert lines[i + 1] == Argument(NAMES[i], blocks[i]);
    NamesPlain(i);
    OneLine(NAMES[i], blocks[i]);
  }

  lemma {:induction false} HexIsOneLine(bytes: seq<byte>)
    ensures '\n' !in Hex(bytes)
  {
    if bytes != [] {
      HexCharPlain(bytes[0] / 16);
      HexCharPlain(bytes[0] % 16);
      assert IsSpace('\n');
      HexIsOneLine(bytes[1..]);
    }
  }

  /** From a log to the command: parameter i is the digits of dump i. */
  lemma LogToCommand(before: seq<string>, dumps: seq<Dump>, cmd: string, i: nat)
    requires forall k | 0 <= k < |before| :: !HeaderText(before[k])
    requires forall k | 0 <= k < |dumps| :: dumps[k].Ok()
    requires |NAMES| <= |dumps| && i < |NAMES|
    requires var blocks := Blocks(before + Print(dumps)); |NAMES| <= |blocks| ==> cmd == JoinLines(CommandLines(blocks))
    ensures BlockOf(cmd, i) == Some(Hex(RowBytes(dumps[i].rows)))
  {
    var blocks := Blocks(before + Print(dumps));
    DumpsRoundTrip(before, dumps);
    forall k | 0 <= k < |blocks|
      ensures '\n' !in blocks[k]
    {
      HexIsOneLine(RowBytes(dumps[k].rows));
    }
    CommandReadBack(blocks, cmd, i);
  }

  /** Each option with the block that is written after it. */
  lemma OptionsWritten(b: seq<string>)
    requires 10 <= |b|
    ensures |CommandLines(b)| == 12 && CommandLines(b)[0] == BASE && CommandLines(b)[11] == "-n " + NONCE
    ensures var l := CommandLines(b);
      && l[1] == "-gx 0x" + b[0] + " \\" && l[2] == "-gy 0x" + b[1] + " \\"
      && l[3] == "-hx 0x" + b[2] + " \\" && l[4] == "-hy 0x" + b[3] + " \\"
      && l[5] == "-COMx 0x" + b[4] + " \\" && l[6] == "-COMy 0x" + b[5] + " \\"
      && l[7] == "-Px 0x" + b[6] + " \\" && l[8] == "-Py 0x" + b[7] + " \\"
      && l[9] == "-v 0x" + b[8] + " \\" && l[10] == "-w 0x" + b[9] + " \\"
  {
    assert "-gx" + " 0x" == "-gx 0x" && "-gy" + " 0x" == "-gy 0x";
    assert "-hx" + " 0x" == "-hx 0x" && "-hy" + " 0x" == "-hy 0x";
    assert "-COMx" + " 0x" == "-COMx 0x" && "-COMy" + " 0x" == "-COMy 0x";
    assert "-Px" + " 0x" == "-Px 0x" && "-Py" + " 0x" == "-Py 0x";
    assert "-v" + " 0x" == "-v 0x" && "-w" + " 0x" == "-w 0x";
  }

  /** The nonce: the same 32 digits four times. */
  lemma NonceWritten()
    ensures |NONCE| == 130 && NONCE[..2] == "0X"
    ensures NONCE[2..34] == NONCE[34..66] == NONCE[66..98] == NONCE[98..130] == "8899AABBCCDDEEFF0011223344556677"
  {
    FourTimes(NONCE_PART, NONCE);
  }

  lemma FourTimes(n: string, s: string)
    requires |n| == 32 && s == "0X" + n + n + n + n
    ensures |s| == 130 && s[..2] == "0X" && s[2..34] == n && s[34..66] == n && s[66..98] == n && s[98..130] == n
  {
    var a, b := "0X" + n, n + n + n;
    assert s == a + b && a[2..34] == n && b[0..32] == n && b[32..64] == n && b[64..96] == n;
    assert s[2..34] == a[2..34] && s[34..66] == b[0..32] && s[66..98] == b[32..64] && s[98..130] == b[64..96];
  }
}
