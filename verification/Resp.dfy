/**
 The RESP form of a command, "*<argc>\r\n" followed by "$<len>\r\n<payload>\r\n" for
 every argument: what clients send, and what the append only file is made of.
 */
module Resp {
  import opened Bytes

  type Command = seq<ByteString>

  function Header(prefix: byte, n: nat): (s: ByteString)
    ensures |s| >= 4 && s[0] == prefix
  {
    [prefix] + Decimal(n) + CRLF
  }

  function EncodeBulk(arg: ByteString): ByteString {
    Header(DOLLAR, |arg|) + arg + CRLF
  }

  function EncodeBulks(args: seq<ByteString>): ByteString {
    if args == [] then [] else EncodeBulk(args[0]) + EncodeBulks(args[1..])
  }

  function Encode(cmd: Command): (s: ByteString)
    ensures |s| >= 4 && s[0] == STAR
  {
    Header(STAR, |cmd|) + EncodeBulks(cmd)
  }

  function EncodeAll(cmds: seq<Command>): ByteString {
    if cmds == [] then [] else Encode(cmds[0]) + EncodeAll(cmds[1..])
  }

  /** How many leading commands are complete in the first `n` bytes of the stream. */
  function Complete(cmds: seq<Command>, n: nat): (k: nat)
    ensures k <= |cmds|
  {
    if cmds == [] || n < |Encode(cmds[0])| then 0
    else 1 + Complete(cmds[1..], n - |Encode(cmds[0])|)
  }

  lemma Associative(a: ByteString, b: ByteString, c: ByteString)
    ensures (a + b) + c == a + (b + c)
  {
  }

  lemma MoveFirst<T>(a: seq<T>, b: seq<T>)
    requires b != []
    ensures a + [b[0]] + b[1..] == a + b
  {
  }

  /** What has arrived of a stream starting with `a` starts with `a`, once it is long enough. */
  lemma Front(arrived: ByteString, coming: ByteString, a: ByteString, rest: ByteString)
    requires arrived + coming == a + rest && |arrived| >= |a|
    ensures arrived[..|a|] == a && arrived[|a|..] + coming == rest
  {
    assert arrived[..|a|] == (arrived + coming)[..|a|] == (a + rest)[..|a|];
    assert arrived[|a|..] + coming == (arrived + coming)[|a|..] == (a + rest)[|a|..];
  }

  lemma {:induction false} EncodeAllConcat(a: seq<Command>, b: seq<Command>)
    ensures EncodeAll(a + b) == EncodeAll(a) + EncodeAll(b)
  {
    hide Encode;
    if a == [] {
      assert a + b == b;
    } else {
      assert (a + b)[0] == a[0] && (a + b)[1..] == a[1..] + b;
      EncodeAllConcat(a[1..], b);
      Associative(Encode(a[0]), EncodeAll(a[1..]), EncodeAll(b));
    }
  }

  lemma {:induction false} EncodeBulksConcat(a: seq<ByteString>, b: seq<ByteString>)
    ensures EncodeBulks(a + b) == EncodeBulks(a) + EncodeBulks(b)
  {
    if a == [] {
      assert a + b == b;
    } else {
      EncodeBulksConcat(a[1..], b);
      assert (a + b)[1..] == a[1..] + b && (a + b)[0] == a[0];
      Associative(EncodeBulk(a[0]), EncodeBulks(a[1..]), EncodeBulks(b));
    }
  }

  /** Complete counts the commands that end within the first `n` bytes, and no other. */
  lemma {:induction false} CompleteIsMaximal(cmds: seq<Command>, n: nat, k: nat)
    requires k <= |cmds|
    ensures k == Complete(cmds, n) <==>
            |EncodeAll(cmds[..k])| <= n && (k < |cmds| ==> n < |EncodeAll(cmds[..k + 1])|)
  {
    if cmds == [] {
    } else {
      var size := |Encode(cmds[0])|;
      assert cmds[..0] == [];
      assert cmds[..1] == [cmds[0]] && EncodeAll(cmds[..1]) == Encode(cmds[0]) + EncodeAll([]);
      if k > 0 {
        assert cmds[..k][1..] == cmds[1..][..k - 1];
        if k < |cmds| {
          assert cmds[..k + 1][1..] == cmds[1..][..k];
        }
        if n >= size {
          CompleteIsMaximal(cmds[1..], n - size, k - 1);
        }
      }
    }
  }

  lemma EncodeOne(cmd: Command)
    ensures EncodeAll([cmd]) == Encode(cmd)
  {
    hide Encode;
    assert [cmd][1..] == [];
    assert Encode(cmd) + [] == Encode(cmd);
  }

  /** Headers are short. */
  lemma HeaderLength(prefix: byte, n: nat)
    requires n <= INT64_MAX
    ensures |Header(prefix, n)| <= 22
  {
    assert Pow10(7) == 10000000 && Pow10(13) == 10000000000000;
    assert Pow10(19) == 10000000000000000000;
    DecimalLength(n, 19);
  }
}
