/** ConfineTraoriHemisphere: a pass over a Sinumerik part program in TRAORI tool-vector form.
    Every input line is written out once, relabelled `N` plus its zero-based line index
    padded to six digits. A G0/G1 block made only of X/Y/Z and A3=/B3=/C3= words is
    rewritten as a move to the modal position with the A and C table angles computed from
    the modal tool vector; any other line is written with its old label removed. */
module ConfineTraoriHemisphere {
  import opened Wrappers
  import opened PyStr
  import opened TextIO

  /** The floating-point operations the pass relies on, left abstract: float() on the text
      of a component value, str() on a float, j / sqrt(i*i + j*j) for the normalised j, and
      the A/C angle computation from k and the normalised j. */
  datatype FloatOps = FloatOps(parse: string -> Option<real>, show: real -> string,
                               normalise: (real, real) -> real, angles: (real, real) -> (real, real))

  /** The errors that stop the pass. */
  datatype ConfineError =
    | Duplicate(name: string)   // RuntimeError: a component given twice in one block
    | BadNumber(text: string)   // ValueError: float() refused the value text
    | Missing(key: char)        // KeyError: a rewritten block needs x, y or z before any block set it
    | Unbound                   // UnboundLocalError: j_n read before any rewrite with k < .99 set it

  /** The modal component values, keyed x, y, z, i, j, k, and under NormalJ the local j_n,
      which keeps the value the last rewrite with k < .99 gave it. */
  type Modal = map<char, real>

  const NormalJ: char := 'n'

  /** i, j, k start as the vertical tool vector (0, 0, 1); x, y and z start unset. */
  const InitialModal: Modal := map['i' := 0.0, 'j' := 0.0, 'k' := 1.0]

  /** A block word, upper-cased, as the pass classifies it. */
  datatype Token = Component(name: string, value: string) | Comment | Other

  function Classify(word: string): Token {
    if |word| >= 1 && (word[0] == 'X' || word[0] == 'Y' || word[0] == 'Z') then Component(word[..1], word[1..])
    else if |word| >= 3 && (word[..3] == "A3=" || word[..3] == "B3=" || word[..3] == "C3=") then Component(word[..3], word[3..])
    else if |word| >= 1 && word[0] == ';' then Comment
    else Other
  }

  /** The modal key a component name sets. */
  function Key(name: string): char {
    match name
    case "X" => 'x'
    case "Y" => 'y'
    case "Z" => 'z'
    case "A3=" => 'i'
    case "B3=" => 'j'
    case _ => 'k'
  }

  /** What `\d+` leaves of s: a suffix of s that starts with no digit, after a prefix of
      digits only. */
  function DropDigits(s: string): (r: string)
    ensures |r| <= |s| && r == s[|s| - |r|..]
    ensures AllDigits(s[..|s| - |r|])
    ensures r == [] || !IsDigit(r[0])
  {
    if s != [] && IsDigit(s[0]) then DropDigits(s[1..]) else s
  }

  function UpToLineFeed(s: string): string {
    if s == [] || s[0] == '\n' then [] else [s[0]] + UpToLineFeed(s[1..])
  }

  /** The line with a leading `N<digits>` label (either case of N) removed and the rest
      stripped: the match of `\s*N\d+\s*(.*)`, its group stripped, or else the line itself. */
  function StripLabel(line: string): string {
    var t := LStrip(line);
    if |t| >= 2 && (t[0] == 'N' || t[0] == 'n') && IsDigit(t[1]) then Strip(UpToLineFeed(LStrip(DropDigits(t[1..]))))
    else line
  }

  /** The label written in front of output line n. */
  function Label(n: nat): string {
    "N" + ZeroPad(n, 6)
  }

  /** What scanning the words of a block yields: whether every word up to a comment was a
      component, whether any component was seen, and the modal values after the block. */
  datatype Scan = Scan(ok: bool, hasValue: bool, modal: Modal)

  /** Scanning words with the component names `seen` already given in this block. */
  function ScanWords(ops: FloatOps, words: seq<string>, modal: Modal, seen: set<string>, hasValue: bool): Result<Scan, ConfineError>
    decreases |words|
  {
    if words == [] then Success(Scan(true, hasValue, modal))
    else
      var t := Classify(Upper(words[0]));
      if t.Comment? then Success(Scan(true, hasValue, modal))
      else if t.Other? then Success(Scan(false, hasValue, modal))
      else if t.name in seen then Failure(Duplicate(t.name))
      else
        var v := ops.parse(t.value);
        if v.None? then Failure(BadNumber(t.value))
        else ScanWords(ops, words[1..], modal[Key(t.name) := v.value], seen + {t.name}, true)
  }

  /** The G number a block's first word selects, if it is exactly G0 or G1. */
  function GNumber(first: string): Option<nat> {
    if first == "G0" then Some(0) else if first == "G1" then Some(1) else None
  }

  /** The label-stripped text of an input line and its words. */
  function Text(raw: string): string {
    StripLabel(Strip(raw))
  }

  function Words(raw: string): (r: seq<string>)
    ensures |r| >= 1
  {
    WsSplit(Text(raw))
  }

  /** The words after a leading G0 or G1. */
  function BlockWords(raw: string): seq<string> {
    var words := Words(raw);
    if GNumber(words[0]).Some? then words[1..] else words
  }

  /** The line written for input line n and the modal values after it; `rewritten` tells
      which of the two output forms was chosen. */
  datatype LineOut = LineOut(text: string, rewritten: bool, modal: Modal)

  /** The A and C words of a rewritten block. */
  function AngleWords(ops: FloatOps, ac: (real, real)): string {
    " A=" + ops.show(ac.0) + " C=" + ops.show(ac.1)
  }

  function Rewrite(ops: FloatOps, n: nat, g: nat, m: Modal): Result<LineOut, ConfineError>
    requires g < 10
  {
    if 'x' !in m then Failure(Missing('x'))
    else if 'y' !in m then Failure(Missing('y'))
    else if 'z' !in m then Failure(Missing('z'))
    else if 'i' !in m then Failure(Missing('i'))
    else if 'j' !in m then Failure(Missing('j'))
    else if 'k' !in m then Failure(Missing('k'))
    else
      var m' := if m['k'] < 0.99 then m[NormalJ := ops.normalise(m['i'], m['j'])] else m;
      if NormalJ !in m' then Failure(Unbound)
      else
        var ac := ops.angles(m'['k'], m'[NormalJ]);
        Success(LineOut(Label(n) + " G" + [DigitChar(g)] + " X" + ops.show(m'['x']) + " Y" + ops.show(m'['y']) +
                        " Z" + ops.show(m'['z']) + AngleWords(ops, ac), true, m'))
  }

  /** What input line n, read as raw, does when the modal values are `modal`. */
  function TranslateLine(ops: FloatOps, raw: string, n: nat, modal: Modal): Result<LineOut, ConfineError> {
    var g := GNumber(Words(raw)[0]);
    var scan := ScanWords(ops, BlockWords(raw), modal, {}, false);
    if scan.Failure? then Failure(scan.error)
    else if scan.value.ok && scan.value.hasValue && g.Some? then
      Rewrite(ops, n, g.value, scan.value.modal)
    else Success(LineOut(Label(n) + " " + Text(raw), false, scan.value.modal))
  }

  /** The result of the pass over a run of lines: the lines written and the modal values
      so far, and the error that stopped it, if one did. */
  datatype Outcome = Outcome(written: seq<string>, modal: Modal, error: Option<ConfineError>)

  /** The pass over `lines`, as read, the first of them being input line n. */
  function RunLines(ops: FloatOps, lines: seq<string>, n: nat, modal: Modal): Outcome
    decreases |lines|
  {
    if lines == [] then Outcome([], modal, None)
    else
      var r := TranslateLine(ops, lines[0], n, modal);
      if r.Failure? then Outcome([], modal, Some(r.error))
      else
        var rest := RunLines(ops, lines[1..], n + 1, r.value.modal);
        Outcome([r.value.text] + rest.written, rest.modal, rest.error)
  }

  /** What follows the lines `first` has written when the lines after it yield `next`. */
  function Then(first: Outcome, next: Outcome): Outcome
    requires first.error.None?
  {
    Outcome(first.written + next.written, next.modal, next.error)
  }

  /** A line that raises stops the pass there. */
  lemma RunStepFail(ops: FloatOps, content: string, pos: nat, n: nat, modal: Modal, e: ConfineError)
    requires pos < |content| && TranslateLine(ops, ReadLine(content, pos), n, modal) == Failure(e)
    ensures RunLines(ops, Lines(content, pos), n, modal) == Outcome([], modal, Some(e))
  {
    LinesStep(content, pos);
  }

  /** A line that translates is written ahead of the lines after it, which start from its
      modal values. */
  lemma RunStepSuccess(ops: FloatOps, content: string, pos: nat, n: nat, modal: Modal, out: LineOut)
    requires pos < |content| && TranslateLine(ops, ReadLine(content, pos), n, modal) == Success(out)
    ensures RunLines(ops, Lines(content, pos), n, modal) ==
              Then(Outcome([out.text], out.modal, None), RunLines(ops, Lines(content, pos + |ReadLine(content, pos)|), n + 1, out.modal))
  {
    LinesStep(content, pos);
  }

  /** The per-word loop over a block: classifies each upper-cased word, rejects a name
      given twice, and stores each value in the modal map, until a comment or a word that is
      not a component ends it. */
  method ScanBlock(ops: FloatOps, components: seq<string>, modal0: Modal) returns (r: Result<Scan, ConfineError>)
    ensures r == ScanWords(ops, components, modal0, {}, false)
  {
    var modal := modal0;
    var seen: set<string> := {};
    var ok := true;
    var hasValue := false;
    var idx := 0;
    while idx < |components|
      invariant idx <= |components|
      invariant ScanWords(ops, components, modal0, {}, false) == ScanWords(ops, components[idx..], modal, seen, hasValue)
      invariant ok
    {
      var component := Upper(components[idx]);
      var name, value;
      if |component| >= 1 && (component[0] == 'X' || component[0] == 'Y' || component[0] == 'Z') {
        name, value := component[..1], component[1..];
        hasValue := true;
      } else if |component| >= 3 && (component[..3] == "A3=" || component[..3] == "B3=" || component[..3] == "C3=") {
        name, value := component[..3], component[3..];
        hasValue := true;
      } else if |component| >= 1 && component[0] == ';' {
        break;
      } else {
        ok := false;
        break;
      }
      if name in seen {
        return Failure(Duplicate(name));
      }
      seen := seen + {name};
      var v := ops.parse(value);
      if v.None? {
        return Failure(BadNumber(value));
      }
      modal := modal[Key(name) := v.value];
      idx := idx + 1;
    }
    r := Success(Scan(ok, hasValue, modal));
  }

  /** One iteration of the pass's outer loop: input line n, read as raw. */
  method Block(ops: FloatOps, raw: string, n: nat, modal: Modal) returns (r: Result<LineOut, ConfineError>)
    ensures r == TranslateLine(ops, raw, n, modal)
  {
    var line := Strip(raw);
    line := StripLabel(line);
    var components := WsSplit(line);
    var inGx: Option<nat> := None;
    if components[0] == "G0" {
      inGx := Some(0);
      components := components[1..];
    } else if components[0] == "G1" {
      inGx := Some(1);
      components := components[1..];
    }
    var scan := ScanBlock(ops, components, modal);
    if scan.Failure? {
      return Failure(scan.error);
    }
    if scan.value.ok && scan.value.hasValue && inGx.Some? {
      r := Rewrite(ops, n, inGx.value, scan.value.modal);
    } else {
      r := Success(LineOut(Label(n) + " " + line, false, scan.value.modal));
    }
  }

  /** The body of the pass's loop for input line n, read at pos: the error it raises, or
      the lines written after it, the modal values after it and the position after it. */
  method Advance(ops: FloatOps, content: string, pos: nat, n: nat, modal: Modal, written: seq<string>, ghost total: Outcome)
    returns (next: nat, modal': Modal, written': seq<string>, error: Option<ConfineError>)
    requires pos < |content|
    requires total == Then(Outcome(written, modal, None), RunLines(ops, Lines(content, pos), n, modal))
    ensures error.Some? ==> written' == written && total == Outcome(written, modal, error)
    ensures error.None? ==> pos < next <= |content| &&
                            total == Then(Outcome(written', modal', None), RunLines(ops, Lines(content, next), n + 1, modal'))
  {
    var raw := ReadLine(content, pos);
    var r := Block(ops, raw, n, modal);
    if r.Failure? {
      assert total == Outcome(written, modal, Some(r.error)) by {
        RunStepFail(ops, content, pos, n, modal, r.error);
        assert written + [] == written;
      }
      return pos, modal, written, Some(r.error);
    }
    next, modal', written', error := pos + |raw|, r.value.modal, written + [r.value.text], None;
    ghost var rest := RunLines(ops, Lines(content, next), n + 1, modal');
    assert total == Then(Outcome(written', modal', None), rest) by {
      RunStepSuccess(ops, content, pos, n, modal, r.value);
      assert written' + rest.written == written + ([r.value.text] + rest.written);
    }
  }

  /** ConfineTraoriHemisphere.run on an input file holding content: the lines written to
      the output file and the error raised, if any. */
  method Run(ops: FloatOps, content: string) returns (written: seq<string>, error: Option<ConfineError>)
    ensures written == RunLines(ops, Lines(content, 0), 0, InitialModal).written
    ensures error == RunLines(ops, Lines(content, 0), 0, InitialModal).error
  {
    var lineNum := 0;
    var pos := 0;
    var line := ReadLine(content, pos);
    var modal := InitialModal;
    written := [];
    ghost var total := RunLines(ops, Lines(content, 0), 0, InitialModal);
    while line != []
      invariant pos <= |content| && line == ReadLine(content, pos)
      invariant total == Then(Outcome(written, modal, None), RunLines(ops, Lines(content, pos), lineNum, modal))
      decreases |content| - pos
    {
      var failure;
      pos, modal, written, failure := Advance(ops, content, pos, lineNum, modal, written, total);
      if failure.Some? {
        error := failure;
        return;
      }
      lineNum := lineNum + 1;
      line := ReadLine(content, pos);
    }
    error := None;
  }

  // ---------------------------------------------------------------------------------------
  // Labels

  /** Line k of written carries the label of input line n + k. */
  predicate LabelledFrom(written: seq<string>, n: nat) {
    forall k :: 0 <= k < |written| ==> StartsWith(written[k], Label(n + k) + " ")
  }

  /** Every line written carries the label of its own input line: `N`, the line index
      zero-padded to six digits, then a space. Without an error there is one output line per
      input line; an error leaves exactly the lines before the failing one. */
  lemma {:induction false} OneLinePerInput(ops: FloatOps, lines: seq<string>, n: nat, modal: Modal)
    ensures var o := RunLines(ops, lines, n, modal);
            (o.error.None? <==> |o.written| == |lines|) && |o.written| <= |lines| && LabelledFrom(o.written, n)
    decreases |lines|
  {
    if lines != [] {
      var r := TranslateLine(ops, lines[0], n, modal);
      if r.Success? {
        LineLabelled(ops, lines[0], n, modal);
        OneLinePerInput(ops, lines[1..], n + 1, r.value.modal);
        LabelledCons(r.value.text, RunLines(ops, lines[1..], n + 1, r.value.modal).written, n);
      }
    }
  }

  lemma LabelledCons(text: string, rest: seq<string>, n: nat)
    requires StartsWith(text, Label(n) + " ") && LabelledFrom(rest, n + 1)
    ensures LabelledFrom([text] + rest, n)
  {
    var all := [text] + rest;
    forall k | 1 <= k < |all|
      ensures StartsWith(all[k], Label(n + k) + " ")
    {
      assert all[k] == rest[k - 1];
      assert n + k == (n + 1) + (k - 1);
    }
  }

  lemma LineLabelled(ops: FloatOps, raw: string, n: nat, modal: Modal)
    requires TranslateLine(ops, raw, n, modal).Success?
    ensures StartsWith(TranslateLine(ops, raw, n, modal).value.text, Label(n) + " ")
  {
  }

  /** The label reads back as the line index and is exactly six digits long for the first
      million lines. */
  lemma LabelReadsBack(n: nat)
    ensures Label(n)[0] == 'N' && AllDigits(Label(n)[1..]) && DecimalValue(Label(n)[1..]) == n
    ensures n < 1000000 ==> |Label(n)| == 7
  {
    assert Label(n)[1..] == ZeroPad(n, 6);
    ZeroPadRoundTrip(n, 6);
    if n < 1000000 {
      assert Pow10(6) == 1000000 by {
        assert Pow10(3) == 1000;
      }
      DecimalLength(n, 6);
    }
  }

  /** A leading label `N<digits>` or `n<digits>` is removed, with the space after it. */
  lemma LabelRemoved(c: char, digits: string, rest: string)
    requires c == 'N' || c == 'n'
    requires |digits| >= 1 && AllDigits(digits)
    requires rest == [] || !IsDigit(rest[0])
    requires '\n' !in rest
    ensures StripLabel([c] + digits + rest) == Strip(rest)
  {
    var line := [c] + digits + rest;
    assert LStrip(line) == line;
    assert line[0] == c && line[1] == digits[0] && IsDigit(line[1]);
    assert DropDigits(line[1..]) == rest by {
      assert line[1..] == digits + rest;
      DropDigitsPrefix(digits, rest);
    }
    assert UpToLineFeed(LStrip(rest)) == LStrip(rest) by {
      LStripShape(rest);
      assert '\n' !in LStrip(rest) by {
        forall i | 0 <= i < |LStrip(rest)| ensures LStrip(rest)[i] != '\n' {
          assert LStrip(rest)[i] == rest[|rest| - |LStrip(rest)| + i];
        }
      }
      UpToLineFeedAll(LStrip(rest));
    }
    assert Strip(LStrip(rest)) == Strip(rest) by {
      StripLStrip(rest);
    }
  }

  lemma {:induction false} DropDigitsPrefix(digits: string, rest: string)
    requires AllDigits(digits)
    requires rest == [] || !IsDigit(rest[0])
    ensures DropDigits(digits + rest) == rest
  {
    if digits == [] {
      assert digits + rest == rest;
    } else {
      assert (digits + rest)[1..] == digits[1..] + rest;
      DropDigitsPrefix(digits[1..], rest);
    }
  }

  lemma {:induction false} UpToLineFeedAll(s: string)
    requires '\n' !in s
    ensures UpToLineFeed(s) == s
  {
    if s != [] {
      assert '\n' !in s[1..] by {
        forall i | 0 <= i < |s| - 1 ensures s[1..][i] != '\n' {
          assert s[1..][i] == s[i + 1];
        }
      }
      UpToLineFeedAll(s[1..]);
    }
  }

  lemma StripLStrip(s: string)
    ensures Strip(LStrip(s)) == Strip(s)
  {
    LStripTwice(s);
  }

  lemma {:induction false} LStripTwice(s: string)
    ensures LStrip(LStrip(s)) == LStrip(s)
  {
    if s != [] && IsSpace(s[0]) {
      LStripTwice(s[1..]);
    }
  }

  /** A line not starting with a label is kept as it is. */
  lemma Unlabelled(line: string)
    requires var t := LStrip(line); |t| < 2 || (t[0] != 'N' && t[0] != 'n') || !IsDigit(t[1])
    ensures StripLabel(line) == line
  {
  }

  // ---------------------------------------------------------------------------------------
  // Which lines are rewritten

  /** The component name of a word, or "" for a word that is not a component. */
  function NameOf(word: string): string {
    var t := Classify(Upper(word));
    if t.Component? then t.name else ""
  }

  function ValueOf(word: string): string {
    var t := Classify(Upper(word));
    if t.Component? then t.value else ""
  }

  /** The number of leading words that are components. */
  function LeadingComponents(words: seq<string>): (m: nat)
    ensures m <= |words|
  {
    if words != [] && Classify(Upper(words[0])).Component? then 1 + LeadingComponents(words[1..]) else 0
  }

  lemma {:induction false} LeadingComponentsAre(words: seq<string>)
    ensures forall t :: 0 <= t < LeadingComponents(words) ==> Classify(Upper(words[t])).Component?
    ensures LeadingComponents(words) < |words| ==> !Classify(Upper(words[LeadingComponents(words)])).Component?
  {
    if words != [] && Classify(Upper(words[0])).Component? {
      LeadingComponentsAre(words[1..]);
      forall t | 1 <= t < LeadingComponents(words)
        ensures Classify(Upper(words[t])).Component?
      {
        assert words[t] == words[1..][t - 1];
      }
    }
  }

  /** A line qualifies for rewriting: its first word is exactly G0 or G1, at least one word
      after it is a component, and the first word that is not a component, if any, is a
      comment. */
  predicate Eligible(raw: string) {
    var words := Words(raw);
    var block := words[1..];
    var m := LeadingComponents(block);
    (words[0] == "G0" || words[0] == "G1") && m >= 1 && (m == |block| || Classify(Upper(block[m])).Comment?)
  }

  /** A scan that succeeds reports `ok` exactly when the components run to the end or to a
      comment, and `hasValue` exactly when a component was seen. */
  lemma {:induction false} ScanFlags(ops: FloatOps, words: seq<string>, modal: Modal, seen: set<string>, hasValue: bool)
    requires ScanWords(ops, words, modal, seen, hasValue).Success?
    ensures var sc := ScanWords(ops, words, modal, seen, hasValue).value;
            var m := LeadingComponents(words);
            (sc.ok <==> (m == |words| || Classify(Upper(words[m])).Comment?)) &&
            (sc.hasValue <==> (hasValue || m >= 1))
    decreases |words|
  {
    if words != [] {
      var t := Classify(Upper(words[0]));
      if t.Component? {
        var v := ops.parse(t.value);
        ScanFlags(ops, words[1..], modal[Key(t.name) := v.value], seen + {t.name}, true);
        var m := LeadingComponents(words[1..]);
        if m < |words[1..]| {
          assert words[1..][m] == words[m + 1];
        }
      }
    }
  }

  /** A line that is processed without error is rewritten exactly when it qualifies. */
  lemma RewrittenIffEligible(ops: FloatOps, raw: string, n: nat, modal: Modal)
    requires TranslateLine(ops, raw, n, modal).Success?
    ensures TranslateLine(ops, raw, n, modal).value.rewritten <==> Eligible(raw)
  {
    ScanFlags(ops, BlockWords(raw), modal, {}, false);
  }

  /** A rewritten line starts with its label, the G word of g and the X word. */
  lemma RewriteForm(ops: FloatOps, n: nat, g: nat, m: Modal)
    requires g < 10 && Rewrite(ops, n, g, m).Success?
    ensures Rewrite(ops, n, g, m).value.rewritten
    ensures StartsWith(Rewrite(ops, n, g, m).value.text, Label(n) + " G" + [DigitChar(g)] + " X")
  {
  }

  /** The angles of a rewrite: with k < .99 the normalised j is computed afresh and kept;
      otherwise the j_n of an earlier rewrite is used again, and without one the block
      raises UnboundLocalError. The A and C words are the angles of k and that j_n. */
  lemma RewriteAngles(ops: FloatOps, n: nat, g: nat, m: Modal)
    requires g < 10
    requires 'x' in m && 'y' in m && 'z' in m && 'i' in m && 'j' in m && 'k' in m
    ensures Rewrite(ops, n, g, m).Failure? <==> m['k'] >= 0.99 && NormalJ !in m
    ensures Rewrite(ops, n, g, m).Failure? ==> Rewrite(ops, n, g, m).error == Unbound
    ensures Rewrite(ops, n, g, m).Success? ==>
              var jn := if m['k'] < 0.99 then ops.normalise(m['i'], m['j']) else m[NormalJ];
              var ac := ops.angles(m['k'], jn);
              Rewrite(ops, n, g, m).value.modal == m[NormalJ := jn] &&
              EndsWith(Rewrite(ops, n, g, m).value.text, AngleWords(ops, ac))
  {
    if Rewrite(ops, n, g, m).Success? {
      var jn := if m['k'] < 0.99 then ops.normalise(m['i'], m['j']) else m[NormalJ];
      var m' := m[NormalJ := jn];
      assert m' == (if m['k'] < 0.99 then m[NormalJ := ops.normalise(m['i'], m['j'])] else m);
      var words := AngleWords(ops, ops.angles(m['k'], jn));
      var front := Label(n) + " G" + [DigitChar(g)] + " X" + ops.show(m'['x']) + " Y" + ops.show(m'['y']) +
                   " Z" + ops.show(m'['z']);
      assert Rewrite(ops, n, g, m).value.text == front + words;
      EndsWithAppend(front, words);
    }
  }

  /** The tool vector starts vertical (k = 1) with no j_n, so the first block to be
      rewritten raises UnboundLocalError unless an earlier block tilted the tool vector. */
  lemma VerticalStartUnbound(ops: FloatOps, n: nat, g: nat, x: real, y: real, z: real)
    requires g < 10
    ensures Rewrite(ops, n, g, InitialModal['x' := x]['y' := y]['z' := z]) == Failure(Unbound)
  {
  }

  /** A rewritten line carries the G number its first word selected, then the X word; any
      other line is written label-stripped after its new label. */
  lemma OutputForms(ops: FloatOps, raw: string, n: nat, modal: Modal)
    requires TranslateLine(ops, raw, n, modal).Success?
    ensures var out := TranslateLine(ops, raw, n, modal).value;
            if out.rewritten then (Words(raw)[0] == "G0" || Words(raw)[0] == "G1") && StartsWith(out.text, Label(n) + " " + Words(raw)[0] + " X")
            else out.text == Label(n) + " " + Text(raw)
  {
    var g := GNumber(Words(raw)[0]);
    var scan := ScanWords(ops, BlockWords(raw), modal, {}, false);
    if scan.value.ok && scan.value.hasValue && g.Some? {
      RewriteForm(ops, n, g.value, scan.value.modal);
      assert [DigitChar(g.value)] == Words(raw)[0][1..];
      assert Words(raw)[0] == "G" + [DigitChar(g.value)];
      assert Label(n) + " " + Words(raw)[0] + " X" == Label(n) + " G" + [DigitChar(g.value)] + " X";
    }
  }

  // ---------------------------------------------------------------------------------------
  // Duplicate components

  function NamesBefore(words: seq<string>, j: nat): set<string>
    requires j <= |words|
  {
    set t | 0 <= t < j :: NameOf(words[t])
  }

  /** A component name given twice among a block's components is an error: a duplicate
      error, unless float() refused an earlier value first. */
  lemma {:induction false} DuplicateRejected(ops: FloatOps, words: seq<string>, modal: Modal, seen: set<string>, hasValue: bool, j: nat)
    requires j < LeadingComponents(words)
    requires NameOf(words[j]) in seen + NamesBefore(words, j)
    ensures ScanWords(ops, words, modal, seen, hasValue).Failure?
    ensures (forall t :: 0 <= t < j ==> ops.parse(ValueOf(words[t])).Some?) ==>
              ScanWords(ops, words, modal, seen, hasValue).error.Duplicate?
    decreases |words|
  {
    var t := Classify(Upper(words[0]));
    if j > 0 && t.name !in seen {
      var v := ops.parse(t.value);
      if v.Some? {
        assert NameOf(words[j]) in (seen + {t.name}) + NamesBefore(words[1..], j - 1) by {
          if NameOf(words[j]) !in seen + {t.name} {
            var u :| 0 <= u < j && NameOf(words[u]) == NameOf(words[j]);
            assert words[1..][u - 1] == words[u];
          }
        }
        assert words[1..][j - 1] == words[j];
        forall u | 0 <= u < j - 1 && (forall w :: 0 <= w < j ==> ops.parse(ValueOf(words[w])).Some?)
          ensures ops.parse(ValueOf(words[1..][u])).Some?
        {
          assert words[1..][u] == words[u + 1];
        }
        DuplicateRejected(ops, words[1..], modal[Key(t.name) := v.value], seen + {t.name}, true, j - 1);
      }
    }
  }

  /** At line level: a block whose components name the same component twice is an error. */
  lemma DuplicateInBlock(ops: FloatOps, raw: string, n: nat, modal: Modal, i: nat, j: nat)
    requires i < j < LeadingComponents(BlockWords(raw))
    requires NameOf(BlockWords(raw)[i]) == NameOf(BlockWords(raw)[j])
    ensures TranslateLine(ops, raw, n, modal).Failure?
  {
    DuplicateRejected(ops, BlockWords(raw), modal, {}, false, j);
  }

  // ---------------------------------------------------------------------------------------
  // Modal values

  function KeysBefore(words: seq<string>, m: nat): set<char>
    requires m <= |words|
  {
    set t | 0 <= t < m :: Key(NameOf(words[t]))
  }

  /** After a successful scan, the modal map holds the old keys plus those of the block's
      components; every key the block does not name keeps its old value, and every key it
      names holds the value given in the block. */
  lemma {:induction false} ScanModal(ops: FloatOps, words: seq<string>, modal: Modal, seen: set<string>, hasValue: bool)
    requires ScanWords(ops, words, modal, seen, hasValue).Success?
    ensures ModalAfter(ops, words, modal, ScanWords(ops, words, modal, seen, hasValue).value.modal)
    decreases |words|
  {
    if words != [] {
      var t := Classify(Upper(words[0]));
      if t.Component? {
        var v := ops.parse(t.value);
        var modal' := modal[Key(t.name) := v.value];
        var seen' := seen + {t.name};
        ScanModal(ops, words[1..], modal', seen', true);
        ScanNamesFresh(ops, words[1..], modal', seen', true);
        ScanModalStep(ops, words, modal, modal', ScanWords(ops, words[1..], modal', seen', true).value.modal);
      }
    }
  }

  /** What a block's components leave in the modal map `after`, starting from `before`. */
  predicate ModalAfter(ops: FloatOps, words: seq<string>, before: Modal, after: Modal) {
    var m := LeadingComponents(words);
    after.Keys == before.Keys + KeysBefore(words, m) &&
    (forall c :: c in before && c !in KeysBefore(words, m) ==> after[c] == before[c]) &&
    (forall t :: 0 <= t < m ==> Key(NameOf(words[t])) in after && Some(after[Key(NameOf(words[t]))]) == ops.parse(ValueOf(words[t])))
  }

  lemma ScanModalStep(ops: FloatOps, words: seq<string>, before: Modal, mid: Modal, after: Modal)
    requires words != [] && Classify(Upper(words[0])).Component?
    requires ops.parse(ValueOf(words[0])).Some?
    requires mid == before[Key(NameOf(words[0])) := ops.parse(ValueOf(words[0])).value]
    requires ModalAfter(ops, words[1..], mid, after)
    requires forall u :: 0 <= u < LeadingComponents(words[1..]) ==> NameOf(words[1..][u]) != NameOf(words[0])
    ensures ModalAfter(ops, words, before, after)
  {
    var m := LeadingComponents(words);
    var k0 := Key(NameOf(words[0]));
    KeysBeforeCons(words, m);
    ComponentName(Upper(words[0]));
    assert k0 !in KeysBefore(words[1..], m - 1) by {
      if k0 in KeysBefore(words[1..], m - 1) {
        var u :| 0 <= u < m - 1 && Key(NameOf(words[1..][u])) == k0;
        LeadingComponentsAre(words[1..]);
        ComponentName(Upper(words[1..][u]));
        KeyInjective(NameOf(words[1..][u]), NameOf(words[0]));
      }
    }
    forall u | 0 <= u < m
      ensures Key(NameOf(words[u])) in after && Some(after[Key(NameOf(words[u]))]) == ops.parse(ValueOf(words[u]))
    {
      if u > 0 {
        assert words[1..][u - 1] == words[u];
      }
    }
  }

  lemma KeysBeforeCons(words: seq<string>, m: nat)
    requires 1 <= m <= |words|
    ensures KeysBefore(words, m) == {Key(NameOf(words[0]))} + KeysBefore(words[1..], m - 1)
  {
    forall c | c in KeysBefore(words, m) ensures c in {Key(NameOf(words[0]))} + KeysBefore(words[1..], m - 1) {
      var u :| 0 <= u < m && Key(NameOf(words[u])) == c;
      if u > 0 { assert words[1..][u - 1] == words[u]; }
    }
    forall c | c in KeysBefore(words[1..], m - 1) ensures c in KeysBefore(words, m) {
      var u :| 0 <= u < m - 1 && Key(NameOf(words[1..][u])) == c;
      assert words[1..][u] == words[u + 1];
    }
  }

  /** A component's name is one of the six the pass knows. */
  lemma ComponentName(word: string)
    requires Classify(word).Component?
    ensures Classify(word).name in {"X", "Y", "Z", "A3=", "B3=", "C3="}
  {
    if word[0] == 'X' || word[0] == 'Y' || word[0] == 'Z' {
      assert word[..1] == [word[0]];
    }
  }

  /** Within a successful scan, the names of the later components are new. */
  lemma {:induction false} ScanNamesFresh(ops: FloatOps, words: seq<string>, modal: Modal, seen: set<string>, hasValue: bool)
    requires ScanWords(ops, words, modal, seen, hasValue).Success?
    ensures forall u :: 0 <= u < LeadingComponents(words) ==> NameOf(words[u]) !in seen
    decreases |words|
  {
    if words != [] {
      var t := Classify(Upper(words[0]));
      if t.Component? {
        var v := ops.parse(t.value);
        ScanNamesFresh(ops, words[1..], modal[Key(t.name) := v.value], seen + {t.name}, true);
        forall u | 1 <= u < LeadingComponents(words)
          ensures NameOf(words[u]) !in seen
        {
          assert words[1..][u - 1] == words[u];
        }
      }
    }
  }

  lemma KeyInjective(a: string, b: string)
    requires a in {"X", "Y", "Z", "A3=", "B3=", "C3="} && b in {"X", "Y", "Z", "A3=", "B3=", "C3="}
    requires Key(a) == Key(b)
    ensures a == b
  {
  }
}
