/**
 * The item-script standardisation of the ROM toolbox: in the script file
 * that hands out items, every script but the last gets, as the second
 * parameter of its first command, its own index (the item) and, as the
 * second parameter of its second command, the count 1.
 *
 * A script is a sequence of commands and a command a sequence of
 * parameters, each parameter the raw bytes the script file stores.
 */
module ItemScripts {
  import opened Base

  datatype Command = Command(parameters: seq<seq<byte>>)
  datatype Script = Script(commands: seq<Command>)

  /** `BitConverter.GetBytes((ushort)n)`: the low 16 bits of n, low byte first. */
  function UShortBytes(n: nat): seq<byte>
  {
    var u := n % 0x1_0000;
    [(u % 0x100) as byte, (u / 0x100) as byte]
  }

  /** The value a little-endian 16-bit field holds. */
  function UShortValue(bytes: seq<byte>): int
    requires |bytes| == 2
  {
    bytes[0] as int + 0x100 * bytes[1] as int
  }

  /** The two bytes written for n read back as n, truncated to 16 bits. */
  lemma UShortRoundTrip(n: nat)
    ensures |UShortBytes(n)| == 2
    ensures UShortValue(UShortBytes(n)) == n % 0x1_0000
  {
    var u := n % 0x1_0000;
    assert u == (u % 0x100) + 0x100 * (u / 0x100);
  }

  /** `commands[c].parameters[p] = value` on one script. */
  function SetParameter(s: Script, c: nat, p: nat, value: seq<byte>): Script
    requires c < |s.commands| && p < |s.commands[c].parameters|
  {
    var cmd := s.commands[c];
    s.(commands := s.commands[c := cmd.(parameters := cmd.parameters[p := value])])
  }

  /** The script has the two commands, each with a second parameter, the loop writes to. */
  predicate Standardizable(s: Script)
  {
    && |s.commands| >= 2
    && |s.commands[0].parameters| >= 2
    && |s.commands[1].parameters| >= 2
  }

  /** Script `index` with its item index and its quantity fixed. */
  function StandardizedScript(s: Script, index: nat): Script
    requires Standardizable(s)
  {
    SetParameter(SetParameter(s, 0, 1, UShortBytes(index)), 1, 1, UShortBytes(1))
  }

  /**
   * The whole loop: every script but the last standardised; `None` when
   * some script the loop visits lacks a command or parameter it writes
   * (the list indexer throws).
   */
  function Standardize(scripts: seq<Script>): Option<seq<Script>>
  {
    if forall i :: 0 <= i < |scripts| - 1 ==> Standardizable(scripts[i]) then
      Some(seq(|scripts|, i requires 0 <= i < |scripts| =>
        if i < |scripts| - 1 then StandardizedScript(scripts[i], i) else scripts[i]))
    else None
  }

  /**
   * What standardisation does to each script: for i below Count-1 the
   * second parameter of command 0 becomes the two bytes of i and that of
   * command 1 the two bytes of 1; the last script, every other command,
   * every other parameter and every count of commands and parameters stay
   * as they were.
   */
  lemma StandardizeEffect(scripts: seq<Script>, i: nat, c: nat, p: nat)
    requires Standardize(scripts).Some?
    requires i < |scripts|
    ensures |Standardize(scripts).value| == |scripts|
    ensures var s, s' := scripts[i], Standardize(scripts).value[i];
      && |s'.commands| == |s.commands|
      && (c < |s.commands| ==> |s'.commands[c].parameters| == |s.commands[c].parameters|)
      && (c < |s.commands| && p < |s.commands[c].parameters| ==>
            s'.commands[c].parameters[p]
            == if i < |scripts| - 1 && c < 2 && p == 1 then UShortBytes(if c == 0 then i else 1)
               else s.commands[c].parameters[p])
  {
  }

  /**
   * Standardisation is idempotent: a second run succeeds and changes
   * nothing further.
   */
  lemma {:induction false} StandardizeIdempotent(scripts: seq<Script>)
    requires Standardize(scripts).Some?
    ensures Standardize(Standardize(scripts).value) == Standardize(scripts)
  {
    var once := Standardize(scripts).value;
    forall i | 0 <= i < |once| - 1
      ensures Standardizable(once[i]) && StandardizedScript(once[i], i) == once[i]
    {
      var s := StandardizedScript(scripts[i], i);
      assert once[i] == s;
      var c0 := s.commands[0];
      var c1 := s.commands[1];
      assert c0.parameters[1 := UShortBytes(i)] == c0.parameters;
      assert c1.parameters[1 := UShortBytes(1)] == c1.parameters;
      assert s.commands[0 := c0][1 := c1] == s.commands;
    }
    var twice := Standardize(once).value;
    assert forall i :: 0 <= i < |once| ==> twice[i] == once[i];
    assert twice == once;
  }

  /** The script file as the toolbox holds it while it works on it. */
  class ScriptFile {
    var scripts: seq<Script>

    /** Parsing the file: the file's scripts, in order. */
    constructor (scripts: seq<Script>)
      ensures this.scripts == scripts
    {
      this.scripts := scripts;
    }
  }
}
