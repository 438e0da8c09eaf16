/** A terminal progress line that overwrites itself: every message is padded with spaces up to
    the longest line printed so far and ended with a carriage return. The writer is modelled as
    the text written to it so far. Lengths are counted in characters. */
module ProgressPrinter {
  import opened Text

  /** The text one `Update(message)` writes when the longest earlier line had `oldMax` characters. */
  function Line(oldMax: int, message: string): (line: string)
    ensures |line| == Max(oldMax, |message|) + 1
    ensures line[..|message|] == message && line[|line| - 1] == '\r'
    ensures forall i :: |message| <= i < |line| - 1 ==> line[i] == ' '
  {
    message + Repeat(' ', Max(0, oldMax - |message|)) + "\r"
  }

  /** A printed line always covers every earlier line, so nothing of an older message is left
      visible after the carriage return. */
  lemma LineCoversEarlierLines(oldMax: int, message: string)
    ensures |Line(oldMax, message)| - 1 >= oldMax
    ensures |Line(oldMax, message)| - 1 >= |message|
  {
  }

  /** With nothing printed before, the line is the message and a carriage return. */
  lemma FirstLine(message: string)
    ensures Line(0, message) == message + "\r"
  {
    assert Repeat(' ', 0) == [];
  }

  class Printer {
    /** Everything written to the underlying writer so far. */
    var output: string
    /** The length of the longest message printed so far. */
    var max: int

    predicate Valid()
      reads this
    {
      max >= 0
    }

    constructor ()
      ensures Valid()
      ensures output == [] && max == 0
    {
      output := [];
      max := 0;
    }

    method Update(message: string)
      requires Valid()
      modifies this
      ensures Valid()
      ensures output == old(output) + Line(old(max), message)
      ensures max == Max(old(max), |message|)
      ensures old(max) <= max
    {
      output := output + (message + Repeat(' ', Max(0, max - |message|)) + "\r");
      if |message| > max {
        max := |message|;
      }
    }

    method Complete(message: string)
      requires Valid()
      modifies this
      ensures Valid()
      ensures output == old(output) + Line(old(max), message) + "\n"
      ensures max == Max(old(max), |message|)
    {
      Update(message);
      output := output + "\n";
    }
  }

  /** Two updates on a fresh printer: the first writes exactly "First\r", the second appends
      "Second message\r" and leaves the first line in place. */
  method UpdatePrintsOutput() returns (afterFirst: string, afterSecond: string)
    ensures afterFirst == "First\r"
    ensures afterSecond == "First\rSecond message\r"
  {
    var p := new Printer();
    p.Update("First");
    FirstLine("First");
    afterFirst := p.output;
    p.Update("Second message");
    assert Repeat(' ', 0) == [];
    afterSecond := p.output;
  }

  /** `max` follows the longest message: it grows to a longer message and stays put for a
      shorter one. */
  method MaxTracksLongestMessage() returns (afterShort: int, afterLong: int, afterShortAgain: int)
    ensures afterShort == 5 && afterLong == 24 && afterShortAgain == 24
  {
    var p := new Printer();
    p.Update("Short");
    afterShort := p.max;
    p.Update("This is a longer message");
    afterLong := p.max;
    p.Update("Short");
    afterShortAgain := p.max;
  }

  /** A short completion after a longer update is padded with as many spaces as the longer
      message had extra characters, and the output ends with a carriage return and a newline. */
  method CompleteAfterLongerUpdate() returns (out: string)
    ensures out == "Longer message\r" + "Short" + Repeat(' ', 9) + "\r\n"
  {
    var p := new Printer();
    p.Update("Longer message");
    FirstLine("Longer message");
    p.Complete("Short");
    out := p.output;
  }

  /** Completing on a fresh printer writes the message, a carriage return and a newline. */
  method CompletePrintsOutput() returns (out: string)
    ensures out == "Done\r\n"
  {
    var p := new Printer();
    p.Complete("Done");
    FirstLine("Done");
    out := p.output;
  }
}
