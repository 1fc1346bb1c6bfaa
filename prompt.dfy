/** The terminal prompt the wallet loader reads from, as a script of the
    lines the prompt library delivers. A request consumes lines until the validator
    accepts one and returns that line unchanged; running out of lines is a
    read error. The secure (non-echoing) variant behaves the same here. */
module TerminalPrompt {

  datatype Response = Accepted(line: string, rest: seq<string>) | Exhausted

  /** The position of the first line the validator accepts, or |lines|. */
  function FirstValid(lines: seq<string>, valid: string -> bool): (k: nat)
    ensures k <= |lines|
    ensures k < |lines| ==> valid(lines[k])
    ensures forall j :: 0 <= j < k ==> !valid(lines[j])
    decreases |lines|
  {
    if lines == [] || valid(lines[0]) then 0 else 1 + FirstValid(lines[1..], valid)
  }

  /** What a request for input returns on the given script of lines. */
  function Prompt(lines: seq<string>, valid: string -> bool): (r: Response)
    ensures r.Accepted? ==>
      exists k :: 0 <= k < |lines| && lines[k] == r.line && valid(lines[k]) &&
        r.rest == lines[k + 1..] && forall j :: 0 <= j < k ==> !valid(lines[j])
    ensures r.Exhausted? <==> forall j :: 0 <= j < |lines| ==> !valid(lines[j])
  {
    var k := FirstValid(lines, valid);
    if k < |lines| then Accepted(lines[k], lines[k + 1..]) else Exhausted
  }

  /** Asks for input until a line passes the validator. */
  method RequestInput(lines: seq<string>, valid: string -> bool) returns (r: Response)
    ensures r == Prompt(lines, valid)
  {
    var i := 0;
    while i < |lines| && !valid(lines[i])
      invariant 0 <= i <= |lines|
      invariant i + FirstValid(lines[i..], valid) == FirstValid(lines, valid)
    {
      assert lines[i..][1..] == lines[i + 1..];
      i := i + 1;
    }
    if i == |lines| {
      r := Exhausted;
    } else {
      r := Accepted(lines[i], lines[i + 1..]);
    }
  }
}
