/** The command texts that `sendCommand` of packages/queue/src/redis-queue-adapter.js writes. */
module RespCommands {
  import opened Collections
  import opened RespParser
  import opened RespEncoding

  // ---------------------------------------------------------------- commands

  function ArgTexts(args: seq<string>): string {
    if args == [] then "" else BulkText(args[0]) + ArgTexts(args[1..])
  }

  /** The text `sendCommand` writes. */
  function CommandText(args: seq<string>): string {
    "*" + NatText(|args|) + CRLF + ArgTexts(args)
  }

  function Texts(args: seq<string>): (r: seq<Value>)
    ensures |r| == |args|
  {
    if args == [] then [] else [Text(args[0])] + Texts(args[1..])
  }

  method BuildCommand(args: seq<string>) returns (cmd: string)
    ensures cmd == CommandText(args)
  {
    cmd := "*" + NatText(|args|) + CRLF;
    for i := 0 to |args|
      invariant cmd + ArgTexts(args[i..]) == CommandText(args)
    {
      assert args[i..][1..] == args[i + 1..];
      cmd := cmd + BulkText(args[i]);
    }
  }

  predicate AllAscii(args: seq<string>) {
    args == [] || (IsAscii(args[0]) && AllAscii(args[1..]))
  }

  lemma {:induction false} ArgsParseIff(args: seq<string>)
    ensures ParseItems(ArgTexts(args), |args|) == Items(Texts(args), |ArgTexts(args)|) <==> AllAscii(args)
  {
    hide Parse, ParseItems, BulkText, IsAscii, ByteLength;
    ParseItemsStep(ArgTexts(args), |args|);
    if args != [] {
      var tail := ArgTexts(args[1..]);
      var text := BulkText(args[0]);
      ByteLengthOfAscii(args[0]);
      if IsAscii(args[0]) {
        BulkRoundTrip(args[0], tail);
        assert (text + tail)[|text|..] == tail;
        ArgsParseIff(args[1..]);
        PrependIsInjective(Text(args[0]), |text|, ParseItems(tail, |args| - 1), Texts(args[1..]), |tail|);
      } else {
        WideBulkMisread(args[0], tail);
        if Parse(text + tail).Reply? {
          var rest := ParseItems((text + tail)[Parse(text + tail).consumed..], |args| - 1);
          assert rest.Items? ==> ([Parse(text + tail).value] + rest.values)[0] == Parse(text + tail).value;
          assert Texts(args)[0] == Text(args[0]);
        }
      }
    }
  }

  /** The parser counts characters where the encoder counts bytes: a command reads back as its arguments
      exactly when all of them are ASCII. */
  lemma CommandReadsBackIff(args: seq<string>)
    ensures Parse(CommandText(args)) == Reply(List(Texts(args)), false, |CommandText(args)|) <==> AllAscii(args)
  {
    NumberLine(|args|);
    ArgsParseIff(args);
    hide Parse, ParseItems, ArgTexts, Texts, NatText, IntText, ParseInt, FindCrlf, AllAscii;
    ParseLine('*', NatText(|args|), ArgTexts(args));
    assert CommandText(args) == ['*'] + NatText(|args|) + CRLF + ArgTexts(args);
    assert |CommandText(args)| == 3 + |NatText(|args|)| + |ArgTexts(args)|;
  }
}
