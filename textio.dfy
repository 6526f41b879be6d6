/** A text file opened for reading, seen through readline(): the file's content and the
    position reached so far. Every read returns the text up to and including the next line
    feed, or the rest of the file, and "" once the end is reached. */
module TextIO {

  /** What readline() returns after pos characters of content have been read. */
  function ReadLine(content: string, pos: nat): (line: string)
    requires pos <= |content|
    ensures pos + |line| <= |content|
    ensures line == [] <==> pos == |content|
    decreases |content| - pos
  {
    if pos == |content| then []
    else if content[pos] == '\n' then ['\n']
    else [content[pos]] + ReadLine(content, pos + 1)
  }

  /** A line read is the text at pos, holds a line feed only as its last character, and
      ends with one unless it reaches the end of the file. */
  lemma {:induction false} ReadLineShape(content: string, pos: nat)
    requires pos <= |content|
    ensures ReadLine(content, pos) == content[pos..pos + |ReadLine(content, pos)|]
    ensures forall i :: 0 <= i < |ReadLine(content, pos)| - 1 ==> ReadLine(content, pos)[i] != '\n'
    ensures pos + |ReadLine(content, pos)| < |content| ==> ReadLine(content, pos)[|ReadLine(content, pos)| - 1] == '\n'
    decreases |content| - pos
  {
    if pos < |content| && content[pos] != '\n' {
      ReadLineShape(content, pos + 1);
    }
  }

  /** Every non-empty readline() result from pos to the end of the file, in order. */
  function Lines(content: string, pos: nat): seq<string>
    requires pos <= |content|
    decreases |content| - pos
  {
    if pos == |content| then []
    else
      var line := ReadLine(content, pos);
      [line] + Lines(content, pos + |line|)
  }

  /** Reading before the end of the file takes one line and leaves the lines after it. */
  lemma LinesStep(content: string, pos: nat)
    requires pos < |content|
    ensures Lines(content, pos) == [ReadLine(content, pos)] + Lines(content, pos + |ReadLine(content, pos)|)
  {
  }

  /** The lines read so far, then the next one, then those after it, are all the lines. */
  lemma ReadOn(content: string, pos: nat, read: seq<string>)
    requires pos < |content| && Lines(content, 0) == read + Lines(content, pos)
    ensures Lines(content, 0) == (read + [ReadLine(content, pos)]) + Lines(content, pos + |ReadLine(content, pos)|)
  {
    LinesStep(content, pos);
    var line := ReadLine(content, pos);
    assert read + ([line] + Lines(content, pos + |line|)) == (read + [line]) + Lines(content, pos + |line|);
  }

  function Concat(parts: seq<string>): string {
    if parts == [] then [] else parts[0] + Concat(parts[1..])
  }

  /** The lines read, put back together, are the rest of the file. */
  lemma {:induction false} LinesCoverContent(content: string, pos: nat)
    requires pos <= |content|
    ensures Concat(Lines(content, pos)) == content[pos..]
    decreases |content| - pos
  {
    if pos < |content| {
      var line := ReadLine(content, pos);
      ReadLineShape(content, pos);
      LinesCoverContent(content, pos + |line|);
      assert content[pos..] == line + content[pos + |line|..];
    }
  }

  /** Each line read is non-empty and holds a line feed only as its last character; every
      line but the last one of the file ends with a line feed. */
  lemma {:induction false} LinesShape(content: string, pos: nat)
    requires pos <= |content|
    ensures forall k :: 0 <= k < |Lines(content, pos)| ==> Lines(content, pos)[k] != []
    ensures forall k, i :: 0 <= k < |Lines(content, pos)| && 0 <= i < |Lines(content, pos)[k]| - 1 ==>
              Lines(content, pos)[k][i] != '\n'
    ensures forall k :: 0 <= k < |Lines(content, pos)| - 1 ==>
              Lines(content, pos)[k][|Lines(content, pos)[k]| - 1] == '\n'
    decreases |content| - pos
  {
    if pos < |content| {
      var line := ReadLine(content, pos);
      ReadLineShape(content, pos);
      LinesShape(content, pos + |line|);
      if pos + |line| == |content| {
        assert Lines(content, pos) == [line];
      }
    }
  }
}
