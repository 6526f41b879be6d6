/** DMU65UL_Post: translates an APT cutter-location file into Sinumerik-style G-code for a
    DMU 65 monoBLOCK, one record per line. `RAPID` makes the next motion a rapid one,
    `FEDRAT/...` becomes a feed-rate block and `GOTO/x,y,z[,i,j,k]` a linear move with an
    optional tool-direction vector. The lines written to the output file are the strings
    listed here, each followed by a line feed in the file. */
module Dmu65ulPost {
  import opened Wrappers
  import opened PyStr
  import opened TextIO

  /** The RuntimeError raised for a GOTO record whose value count is neither 3 nor 6. */
  datatype PostError = BadValueCount(count: nat)

  /** The effect of one input record: the line it writes, if any, and the rapid flag after it. */
  datatype Step = Step(output: Option<string>, rapid: bool)

  /** The result of translating a run of records: the lines written so far, the rapid flag
      and the error that stopped the run, if one did. */
  datatype Outcome = Outcome(written: seq<string>, rapid: bool, error: Option<PostError>)

  /** The coordinate words of a GOTO record, value texts copied verbatim in order. */
  function Coords(values: seq<string>): string
    requires |values| == 3 || |values| == 6
  {
    "X" + values[0] + " Y" + values[1] + " Z" + values[2] +
    (if |values| == 6 then " A3=" + values[3] + " B3=" + values[4] + " C3=" + values[5] else "")
  }

  function Motion(rapid: bool): string {
    if rapid then "G0" else "G1"
  }

  /** What one stripped record does when the rapid flag is `rapid`. */
  function TranslateLine(line: string, rapid: bool): Result<Step, PostError> {
    if line == "RAPID" then Success(Step(None, true))
    else if StartsWith(line, "FEDRAT/IPM,") then
      assert line[10] == "FEDRAT/IPM,"[10];
      SplitAtLeastTwo(line, ',');
      Success(Step(Some("G1 F" + Split(line, ',')[1]), rapid))
    else if StartsWith(line, "FEDRAT/") then
      assert line[6] == "FEDRAT/"[6];
      SplitAtLeastTwo(line, '/');
      Success(Step(Some("G1 F" + Split(line, '/')[1]), rapid))
    else if StartsWith(line, "GOTO/") then
      var values := Split(line[5..], ',');
      if |values| == 3 || |values| == 6 then Success(Step(Some(Motion(rapid) + " " + Coords(values)), false))
      else Failure(BadValueCount(|values|))
    else Success(Step(None, rapid))
  }

  function Written(step: Step): seq<string> {
    if step.output.Some? then [step.output.value] else []
  }

  /** What the run loop does with one line read: the translation of the stripped record. */
  function Record(line: string, rapid: bool): Result<Step, PostError> {
    TranslateLine(Strip(line), rapid)
  }

  /** A translation of one line read, given the rapid flag. The run loop and its lemmas are
      stated for any translation; the post's own is Record. */
  type Translator = (string, bool) -> Result<Step, PostError>

  /** Translating the lines read `lines` with `record`, starting with the rapid flag `rapid`. */
  function RunLines(record: Translator, lines: seq<string>, rapid: bool): Outcome {
    if lines == [] then Outcome([], rapid, None)
    else
      var r := record(lines[0], rapid);
      if r.Failure? then Outcome([], rapid, Some(r.error))
      else
        var rest := RunLines(record, lines[1..], r.value.rapid);
        Outcome(Written(r.value) + rest.written, rest.rapid, rest.error)
  }

  /** What follows the output `first` has written when the records after it yield `next`. */
  function Then(first: Outcome, next: Outcome): Outcome
    requires first.error.None?
  {
    Outcome(first.written + next.written, next.rapid, next.error)
  }

  /** A record that raises stops the run there: nothing after it is translated. */
  lemma RunStepFail(record: Translator, content: string, pos: nat, rapid: bool, e: PostError)
    requires pos < |content| && record(ReadLine(content, pos), rapid) == Failure(e)
    ensures RunLines(record, Lines(content, pos), rapid) == Outcome([], rapid, Some(e))
  {
    LinesStep(content, pos);
  }

  /** A record that translates writes its lines ahead of those of the records after it,
      which start from its rapid flag. */
  lemma RunStepSuccess(record: Translator, content: string, pos: nat, rapid: bool, step: Step)
    requires pos < |content| && record(ReadLine(content, pos), rapid) == Success(step)
    ensures RunLines(record, Lines(content, pos), rapid) ==
              Then(Outcome(Written(step), step.rapid, None), RunLines(record, Lines(content, pos + |ReadLine(content, pos)|), step.rapid))
  {
    LinesStep(content, pos);
  }

  lemma ThenAssoc(written: seq<string>, rapid: bool, more: seq<string>, rapid': bool, next: Outcome)
    ensures Then(Outcome(written, rapid, None), Then(Outcome(more, rapid', None), next)) ==
            Then(Outcome(written + more, rapid', None), next)
  {
    assert (written + more) + next.written == written + (more + next.written);
  }

  /** The body of the run loop for the record read at pos: the error it raises, or the lines
      written after it, the rapid flag after it and the position after it. */
  method Advance(record: Translator, content: string, pos: nat, rapid: bool, written: seq<string>, ghost total: Outcome)
    returns (next: nat, rapid': bool, written': seq<string>, error: Option<PostError>)
    requires pos < |content|
    requires total == Then(Outcome(written, rapid, None), RunLines(record, Lines(content, pos), rapid))
    ensures error.Some? ==> written' == written && total == Outcome(written, rapid, error)
    ensures error.None? ==> pos < next <= |content| &&
                            total == Then(Outcome(written', rapid', None), RunLines(record, Lines(content, next), rapid'))
  {
    var raw := ReadLine(content, pos);
    var step := record(raw, rapid);
    if step.Failure? {
      RunStepFail(record, content, pos, rapid, step.error);
      assert written + [] == written;
      return pos, rapid, written, Some(step.error);
    }
    RunStepSuccess(record, content, pos, rapid, step.value);
    ThenAssoc(written, rapid, Written(step.value), step.value.rapid, RunLines(record, Lines(content, pos + |raw|), step.value.rapid));
    next, rapid', written', error := pos + |raw|, step.value.rapid, written + Written(step.value), None;
  }

  /** The run loop over the lines of the input file holding content, translating each with
      `record`: the lines written and the error raised, if any. */
  method RunWith(record: Translator, content: string) returns (written: seq<string>, error: Option<PostError>)
    ensures written == RunLines(record, Lines(content, 0), false).written
    ensures error == RunLines(record, Lines(content, 0), false).error
  {
    var pos := 0;
    var line := ReadLine(content, pos);
    var rapid := false;
    written := [];
    ghost var total := RunLines(record, Lines(content, 0), false);
    while line != []
      invariant pos <= |content| && line == ReadLine(content, pos)
      invariant total == Then(Outcome(written, rapid, None), RunLines(record, Lines(content, pos), rapid))
      decreases |content| - pos
    {
      var failure;
      pos, rapid, written, failure := Advance(record, content, pos, rapid, written, total);
      if failure.Some? {
        error := failure;
        return;
      }
      line := ReadLine(content, pos);
    }
    error := None;
  }

  /** DMU65UL_Post.run on an input file holding content: the lines written to the output
      file and the error raised, if any. */
  method Run(content: string) returns (written: seq<string>, error: Option<PostError>)
    ensures written == RunLines(Record, Lines(content, 0), false).written
    ensures error == RunLines(Record, Lines(content, 0), false).error
  {
    written, error := RunWith(Record, content);
  }

  /** A RAPID record writes nothing and sets the rapid flag. */
  lemma RapidSetsFlag(rapid: bool)
    ensures TranslateLine("RAPID", rapid) == Success(Step(None, true))
  {
  }

  /** Only RAPID sets the rapid flag and only GOTO clears it; FEDRAT and unrecognised
      records leave it as it was. A record writes nothing exactly when it is RAPID or starts
      with neither FEDRAT/ nor GOTO/. */
  lemma FlagAndOutput(line: string, rapid: bool)
    requires TranslateLine(line, rapid).Success?
    ensures TranslateLine(line, rapid).value.rapid ==
              if line == "RAPID" then true else if StartsWith(line, "GOTO/") && !StartsWith(line, "FEDRAT/") then false else rapid
    ensures TranslateLine(line, rapid).value.output.None? <==>
              line == "RAPID" || (!StartsWith(line, "FEDRAT/") && !StartsWith(line, "GOTO/"))
  {
    if StartsWith(line, "FEDRAT/IPM,") {
      assert line[..7] == line[..11][..7];
    }
  }

  /** `FEDRAT/IPM,<v>` writes `G1 F<v>`: the second comma-separated field, whatever follows
      it after a further comma. */
  lemma FedratIpm(v: string, tail: string, rapid: bool)
    requires ',' !in v
    requires tail == [] || tail[0] == ','
    ensures TranslateLine("FEDRAT/IPM," + v + tail, rapid) == Success(Step(Some("G1 F" + v), rapid))
  {
    var line := "FEDRAT/IPM," + v + tail;
    assert line == "FEDRAT/IPM" + ("," + (v + tail));
    assert line[..11] == "FEDRAT/IPM,";
    SplitPrefix("FEDRAT/IPM", "," + (v + tail), ',');
    assert ("," + (v + tail))[1..] == v + tail;
    SplitPrefix(v, tail, ',');
    if tail != [] {
      assert tail == [tail[0]] + tail[1..];
    }
    assert v + [] == v;
  }

  /** Any other `FEDRAT/<v>` writes `G1 F<v>`: the second slash-separated field. */
  lemma FedratOther(v: string, tail: string, rapid: bool)
    requires '/' !in v
    requires tail == [] || tail[0] == '/'
    requires !StartsWith("FEDRAT/" + v + tail, "FEDRAT/IPM,")
    ensures TranslateLine("FEDRAT/" + v + tail, rapid) == Success(Step(Some("G1 F" + v), rapid))
  {
    var line := "FEDRAT/" + v + tail;
    assert line == "FEDRAT" + ("/" + (v + tail));
    assert line[..7] == "FEDRAT/";
    assert line != "RAPID" by {
      assert line[0] != "RAPID"[0];
    }
    SplitPrefix("FEDRAT", "/" + (v + tail), '/');
    assert ("/" + (v + tail))[1..] == v + tail;
    SplitPrefix(v, tail, '/');
    if tail != [] {
      assert tail == [tail[0]] + tail[1..];
    }
    assert v + [] == v;
  }

  /** A GOTO record with 3 or 6 values writes the motion word selected by the rapid flag and
      the values, verbatim and in order, after X, Y, Z and, for 6, A3=, B3=, C3=; it clears
      the flag. */
  lemma GotoValues(values: seq<string>, rapid: bool)
    requires |values| == 3 || |values| == 6
    requires forall i :: 0 <= i < |values| ==> ',' !in values[i]
    ensures TranslateLine("GOTO/" + Join(values, ','), rapid) == Success(Step(Some(Motion(rapid) + " " + Coords(values)), false))
  {
    GotoFields(values);
  }

  /** A GOTO record with any other number of values raises the value-count error. */
  lemma GotoBadCount(values: seq<string>, rapid: bool)
    requires |values| >= 1 && |values| != 3 && |values| != 6
    requires forall i :: 0 <= i < |values| ==> ',' !in values[i]
    ensures TranslateLine("GOTO/" + Join(values, ','), rapid) == Failure(BadValueCount(|values|))
  {
    GotoFields(values);
  }

  lemma GotoFields(values: seq<string>)
    requires |values| >= 1
    requires forall i :: 0 <= i < |values| ==> ',' !in values[i]
    ensures var line := "GOTO/" + Join(values, ',');
            line != "RAPID" && StartsWith(line, "GOTO/") && !StartsWith(line, "FEDRAT/") &&
            Split(line[5..], ',') == values
  {
    GotoPrefix(Join(values, ','));
    SplitJoin(values, ',');
  }

  lemma GotoPrefix(text: string)
    ensures var line := "GOTO/" + text;
            line != "RAPID" && StartsWith(line, "GOTO/") && !StartsWith(line, "FEDRAT/") && line[5..] == text
  {
    var line := "GOTO/" + text;
    assert line[..5] == "GOTO/";
    assert line[0] == 'G';
  }

  /** Translating two runs of records one after the other: the second starts from the first's
      rapid flag, and an error in the first ends the whole run there. */
  lemma {:induction false} RunAppend(record: Translator, a: seq<string>, b: seq<string>, rapid: bool)
    ensures RunLines(record, a + b, rapid) == Sequenced(record, RunLines(record, a, rapid), b)
  {
    if a == [] {
      assert a + b == b;
    } else {
      var r := record(a[0], rapid);
      if r.Success? {
        RunAppend(record, a[1..], b, r.value.rapid);
      }
      RunAppendStep(record, a, b, rapid);
    }
  }

  /** The outcome of the records b run after a run that ended with `first`. */
  function Sequenced(record: Translator, first: Outcome, b: seq<string>): Outcome {
    if first.error.Some? then first else Then(first, RunLines(record, b, first.rapid))
  }

  lemma RunAppendStep(record: Translator, a: seq<string>, b: seq<string>, rapid: bool)
    requires a != []
    requires var r := record(a[0], rapid);
             r.Success? ==> RunLines(record, a[1..] + b, r.value.rapid) == Sequenced(record, RunLines(record, a[1..], r.value.rapid), b)
    ensures RunLines(record, a + b, rapid) == Sequenced(record, RunLines(record, a, rapid), b)
  {
    assert (a + b)[0] == a[0] && (a + b)[1..] == a[1..] + b;
    var r := record(a[0], rapid);
    if r.Success? {
      var first := RunLines(record, a[1..], r.value.rapid);
      if first.error.None? {
        var next := RunLines(record, b, first.rapid);
        assert Written(r.value) + (first.written + next.written) == (Written(r.value) + first.written) + next.written;
      }
    }
  }

  /** A record that raises the error ends the run, and every line written for the records
      before it stays written. */
  lemma ErrorKeepsOutput(record: Translator, lines: seq<string>, k: nat, rapid: bool)
    requires k < |lines|
    requires RunLines(record, lines[..k], rapid).error.None?
    requires record(lines[k], RunLines(record, lines[..k], rapid).rapid).Failure?
    ensures RunLines(record, lines, rapid).written == RunLines(record, lines[..k], rapid).written
    ensures RunLines(record, lines, rapid).error == Some(record(lines[k], RunLines(record, lines[..k], rapid).rapid).error)
  {
    assert lines == lines[..k] + lines[k..];
    RunAppend(record, lines[..k], lines[k..], rapid);
    assert RunLines(record, lines[..k], rapid).error.None?;
    assert lines[k..][0] == lines[k];
    assert RunLines(record, lines[..k], rapid).written + [] == RunLines(record, lines[..k], rapid).written;
  }

  /** Each record writes at most one line. */
  lemma {:induction false} AtMostOneLinePerRecord(record: Translator, lines: seq<string>, rapid: bool)
    ensures |RunLines(record, lines, rapid).written| <= |lines|
  {
    if lines != [] {
      var r := record(lines[0], rapid);
      if r.Success? {
        AtMostOneLinePerRecord(record, lines[1..], r.value.rapid);
      }
    }
  }

  /** A RAPID record followed by a GOTO record writes exactly one line, the GOTO's move as a
      rapid G0; the same GOTO with no RAPID before it at the start of the file is a G1. */
  lemma RapidThenGoto(values: seq<string>)
    requires |values| == 3 || |values| == 6
    requires forall i :: 0 <= i < |values| ==> ',' !in values[i]
    requires values[|values| - 1] != [] && !IsSpace(values[|values| - 1][|values[|values| - 1]| - 1])
    ensures RunLines(Record, ["RAPID", "GOTO/" + Join(values, ',')], false).written == [Motion(true) + " " + Coords(values)]
    ensures RunLines(Record, ["GOTO/" + Join(values, ',')], false).written == [Motion(false) + " " + Coords(values)]
  {
    var goto := "GOTO/" + Join(values, ',');
    GotoAlone(values, true);
    GotoAlone(values, false);
    StripTrimmed("RAPID");
    RapidSetsFlag(false);
    var lines := ["RAPID", goto];
    assert lines[0] == "RAPID" && lines[1..] == [goto];
  }

  lemma GotoAlone(values: seq<string>, rapid: bool)
    requires |values| == 3 || |values| == 6
    requires forall i :: 0 <= i < |values| ==> ',' !in values[i]
    requires values[|values| - 1] != [] && !IsSpace(values[|values| - 1][|values[|values| - 1]| - 1])
    ensures RunLines(Record, ["GOTO/" + Join(values, ',')], rapid) == Outcome([Motion(rapid) + " " + Coords(values)], false, None)
  {
    var goto := "GOTO/" + Join(values, ',');
    JoinLast(values, ',');
    StripTrimmed(goto);
    GotoValues(values, rapid);
    assert [goto][1..] == [];
  }

  /** The last character of a join is that of its last field, when that field is not empty. */
  lemma {:induction false} JoinLast(fields: seq<string>, sep: char)
    requires |fields| >= 1 && fields[|fields| - 1] != []
    ensures var j := Join(fields, sep); j != [] && j[|j| - 1] == fields[|fields| - 1][|fields[|fields| - 1]| - 1]
  {
    if |fields| > 1 {
      JoinLast(fields[1..], sep);
    }
  }
}
