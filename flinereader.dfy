/** flinereader: a generator that yields the lines of a file one at a time with the
    trailing "\r\n" or "\n" removed. The lazily yielded strings are collected here, in
    yield order, as the method's result. */
module FLineReader {
  import opened TextIO

  /** The line with a trailing "\r\n" removed, or else a trailing "\n". */
  function StripTerminator(line: string): string {
    if |line| >= 2 && line[|line| - 2..] == "\r\n" then line[..|line| - 2]
    else if |line| >= 1 && line[|line| - 1] == '\n' then line[..|line| - 1]
    else line
  }

  /** Each line of lines with its terminator removed, in order. */
  function StripAll(lines: seq<string>): (r: seq<string>)
    ensures |r| == |lines|
  {
    if lines == [] then [] else StripAll(lines[..|lines| - 1]) + [StripTerminator(lines[|lines| - 1])]
  }

  lemma {:induction false} StripAllAt(lines: seq<string>, k: nat)
    requires k < |lines|
    ensures StripAll(lines)[k] == StripTerminator(lines[k])
  {
    if k < |lines| - 1 {
      StripAllAt(lines[..|lines| - 1], k);
    }
  }

  lemma StripAllAppend(lines: seq<string>, line: string)
    ensures StripAll(lines + [line]) == StripAll(lines) + [StripTerminator(line)]
  {
    assert (lines + [line])[..|lines|] == lines;
  }

  /** What flinereader yields for a file holding content: its lines, in order, each with
      its terminator removed. */
  method FLineReader(content: string) returns (yielded: seq<string>)
    ensures yielded == StripAll(Lines(content, 0))
  {
    var pos := 0;
    var line := ReadLine(content, pos);
    ghost var read: seq<string> := [];
    yielded := [];
    while line != []
      invariant pos <= |content| && line == ReadLine(content, pos)
      invariant Lines(content, 0) == read + Lines(content, pos)
      invariant yielded == StripAll(read)
      decreases |content| - pos
    {
      var raw := line;
      ReadOn(content, pos, read);
      StripAllAppend(read, raw);
      line := StripTerminator(raw);
      yielded := yielded + [line];
      read := read + [raw];
      pos := pos + |raw|;
      line := ReadLine(content, pos);
    }
    assert Lines(content, 0) == read + [] == read;
  }

  /** The relation between a line read, with a line feed at most at its end, and the
      line with its terminator removed. */
  predicate Stripped(raw: string, out: string) {
    if |raw| >= 2 && raw[|raw| - 2..] == "\r\n" then raw == out + "\r\n"
    else if |raw| >= 1 && raw[|raw| - 1] == '\n' then raw == out + "\n"
    else raw == out
  }

  lemma StripTerminatorLine(raw: string)
    requires forall i :: 0 <= i < |raw| - 1 ==> raw[i] != '\n'
    ensures '\n' !in StripTerminator(raw)
    ensures Stripped(raw, StripTerminator(raw))
  {
    var out := StripTerminator(raw);
    if |raw| >= 2 && raw[|raw| - 2..] == "\r\n" {
      assert raw == out + "\r\n";
    } else if |raw| >= 1 && raw[|raw| - 1] == '\n' {
      assert raw == out + "\n";
    }
  }

  /** What the yielded lines mean for the file: there is one per line read; none holds a
      line feed; each is its line read with exactly "\r\n" removed when the line ended so,
      else exactly "\n" removed when it ended so, else unchanged, and only the file's last
      line can be unchanged. */
  lemma YieldedLines(content: string)
    ensures |StripAll(Lines(content, 0))| == |Lines(content, 0)|
    ensures forall k :: 0 <= k < |Lines(content, 0)| ==> '\n' !in StripAll(Lines(content, 0))[k]
    ensures forall k :: 0 <= k < |Lines(content, 0)| ==> Stripped(Lines(content, 0)[k], StripAll(Lines(content, 0))[k])
    ensures forall k :: 0 <= k < |Lines(content, 0)| - 1 ==> Lines(content, 0)[k] != StripAll(Lines(content, 0))[k]
  {
    LinesShape(content, 0);
    var raws := Lines(content, 0);
    forall k | 0 <= k < |raws|
      ensures '\n' !in StripAll(raws)[k]
      ensures Stripped(raws[k], StripAll(raws)[k])
      ensures k < |raws| - 1 ==> raws[k] != StripAll(raws)[k]
    {
      StripAllAt(raws, k);
      StripTerminatorLine(raws[k]);
      if k < |raws| - 1 {
        assert raws[k][|raws[k]| - 1] == '\n';
      }
    }
  }

  /** An empty file yields nothing; a file with no line feed yields its content once. */
  lemma EmptyAndSingleLine(content: string)
    ensures content == [] ==> Lines(content, 0) == []
    ensures content != [] && '\n' !in content ==> Lines(content, 0) == [content]
  {
    if content != [] && '\n' !in content {
      var line := ReadLine(content, 0);
      ReadLineShape(content, 0);
      assert line == content[0..|content|] == content;
    }
  }
}
