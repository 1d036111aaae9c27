/**
 * `_read_md5_sum_file` of `alleninf/datasets.py`: a checksum file of lines
 * `<hash>  <name>` read into a name -> hash map. The file is given as its
 * text; `readline` is modelled on that text.
 */
module Md5Sums {
  import opened Wrappers

  /** Unpacking a line with no double space into `h, name` raises `ValueError`. */
  datatype Md5Error = ValueError(line: string)

  /** Python's `str.isspace` characters: what `rstrip()` removes. */
  predicate IsSpace(c: char)
  {
    c == ' ' || c == '\t' || c == '\n' || c == '\r' || c as int == 0x0B || c as int == 0x0C
  }

  /** `line.rstrip()`. */
  function RStrip(s: string): (r: string)
    ensures |r| <= |s| && r == s[..|r|]
    ensures |r| > 0 ==> !IsSpace(r[|r| - 1])
    ensures forall i :: |r| <= i < |s| ==> IsSpace(s[i])
  {
    if s == [] || !IsSpace(s[|s| - 1]) then s else RStrip(s[..|s| - 1])
  }

  /** The position of the first `"  "` in `s`, if any. */
  function DoubleSpaceAt(s: string): (k: Option<nat>)
    ensures k.Some? ==> k.value + 1 < |s| && s[k.value] == ' ' && s[k.value + 1] == ' '
    ensures k.Some? ==> forall i :: 0 <= i < k.value ==> !(s[i] == ' ' && s[i + 1] == ' ')
    ensures k.None? ==> forall i :: 0 <= i < |s| - 1 ==> !(s[i] == ' ' && s[i + 1] == ' ')
  {
    if |s| < 2 then None
    else if s[0] == ' ' && s[1] == ' ' then Some(0)
    else match DoubleSpaceAt(s[1..])
      case None => None
      case Some(k) => Some(k + 1)
  }

  /** `h, name = line.rstrip().split('  ', 1)`: the hash before the first double space, the name after it. */
  function ParseLine(line: string): Option<(string, string)>
  {
    var s := RStrip(line);
    match DoubleSpaceAt(s)
    case None => None
    case Some(k) => Some((s[..k], s[k + 2..]))
  }

  /** `f.readline()` at the start of `text`: up to and including the first newline, or the rest. */
  function ReadLine(text: string): (line: string)
    ensures |line| <= |text| && line == text[..|line|]
    ensures |line| > 0 <==> |text| > 0
  {
    if text == [] then []
    else if text[0] == '\n' then "\n"
    else
      var tail := ReadLine(text[1..]);
      assert [text[0]] + tail == text[..|tail| + 1];
      [text[0]] + tail
  }

  /** Successive `readline()` results until end of file. */
  function Lines(text: string): (ls: seq<string>)
    ensures forall i :: 0 <= i < |ls| ==> |ls[i]| > 0
    decreases |text|
  {
    if text == [] then [] else [ReadLine(text)] + Lines(text[|ReadLine(text)|..])
  }

  function Concat(ls: seq<string>): string
  {
    if ls == [] then [] else ls[0] + Concat(ls[1..])
  }

  /** The lines of a text, put back together, are the text. */
  lemma {:induction false} LinesCoverText(text: string)
    ensures Concat(Lines(text)) == text
    decreases |text|
  {
    if text != [] {
      var line := ReadLine(text);
      LinesCoverText(text[|line|..]);
      assert Lines(text)[1..] == Lines(text[|line|..]);
      assert line + text[|line|..] == text;
    }
  }

  /** The loop after the lines `ls`: the map built so far, or the error of the first bad line. */
  function Hashes(ls: seq<string>): (r: Result<map<string, string>, Md5Error>)
  {
    if ls == [] then Success(map[])
    else match Hashes(ls[..|ls| - 1])
      case Failure(e) => Failure(e)
      case Success(m) =>
        match ParseLine(ls[|ls| - 1])
        case None => Failure(ValueError(ls[|ls| - 1]))
        case Some((h, name)) => Success(m[name := h])
  }

  /** `_read_md5_sum_file` on a file whose text is `text`. */
  method ReadMd5SumFile(text: string) returns (r: Result<map<string, string>, Md5Error>)
    ensures r == Hashes(Lines(text))
  {
    var hashes: map<string, string> := map[];
    var rest := text;
    ghost var done: seq<string> := [];
    while rest != []  // `readline()` returns "" only at the end of the file
      invariant Lines(text) == done + Lines(rest)
      invariant Hashes(done) == Success(hashes)
      decreases |rest|
    {
      var line := ReadLine(rest);
      LinesAfterRead(text, done, rest);
      var parsed := ParseLine(line);
      if parsed.None? {
        HashesFailureSticks(done, line, Lines(rest[|line|..]));
        return Failure(ValueError(line));
      }
      HashesStep(done, line);
      hashes := hashes[parsed.value.1 := parsed.value.0];
      done := done + [line];
      rest := rest[|line|..];
    }
    assert done == Lines(text);
    return Success(hashes);
  }

  lemma LinesStep(rest: string)
    requires rest != []
    ensures Lines(rest) == [ReadLine(rest)] + Lines(rest[|ReadLine(rest)|..])
  {
  }

  /** Reading one more line moves it from what is left to what is done. */
  lemma LinesAfterRead(text: string, done: seq<string>, rest: string)
    requires rest != [] && Lines(text) == done + Lines(rest)
    ensures var line := ReadLine(rest);
            Lines(text) == done + [line] + Lines(rest[|line|..]) &&
            Lines(text) == done + ([line] + Lines(rest[|line|..]))
  {
    LinesStep(rest);
    var line := ReadLine(rest);
    assert done + [line] + Lines(rest[|line|..]) == done + ([line] + Lines(rest[|line|..]));
  }

  lemma HashesStep(done: seq<string>, line: string)
    requires Hashes(done).Success? && ParseLine(line).Some?
    ensures Hashes(done + [line]) == Success(Hashes(done).value[ParseLine(line).value.1 := ParseLine(line).value.0])
  {
    assert (done + [line])[..|done|] == done;
  }

  lemma {:induction false} HashesFailureSticks(done: seq<string>, line: string, more: seq<string>)
    requires Hashes(done).Success? && ParseLine(line).None?
    ensures Hashes(done + [line] + more) == Failure(ValueError(line))
    ensures Hashes(done + ([line] + more)) == Failure(ValueError(line))
    decreases |more|
  {
    assert done + [line] + more == done + ([line] + more);
    if more == [] {
      assert (done + [line])[..|done|] == done;
      assert done + [line] + more == done + [line];
    } else {
      var all := done + [line] + more;
      assert all[..|all| - 1] == done + [line] + more[..|more| - 1];
      HashesFailureSticks(done, line, more[..|more| - 1]);
    }
  }

  /** A well-formed line gives back its hash and name; the name may itself hold double spaces. */
  lemma ParseLineRoundTrip(h: string, name: string)
    requires forall i :: 0 <= i < |h| ==> h[i] != ' '
    requires |name| > 0 && !IsSpace(name[|name| - 1])
    ensures ParseLine(h + "  " + name + "\n") == Some((h, name))
  {
    var line := h + "  " + name + "\n";
    var s := h + "  " + name;
    assert RStrip(line) == RStrip(line[..|line| - 1]);
    assert line[..|line| - 1] == s;
    assert s[|h|] == ' ' && s[|h| + 1] == ' ';
    var k := DoubleSpaceAt(s);
    assert k.Some?;
    assert forall i :: 0 <= i < |h| ==> s[i] == h[i];
    assert k.value == |h|;
    assert s[..|h|] == h;
    assert s[|h| + 2..] == name;
  }

  /** A blank line before the end of the file is not a separator: it has no double space and fails. */
  lemma BlankLineFails()
    ensures ParseLine("\n") == None
  {
    assert RStrip("\n") == [];
  }

  /** The file is accepted exactly when every line parses. */
  lemma {:induction false} HashesFailIffBadLine(ls: seq<string>)
    ensures Hashes(ls).Failure? <==> exists i :: 0 <= i < |ls| && ParseLine(ls[i]).None?
  {
    if ls != [] {
      var init := ls[..|ls| - 1];
      HashesFailIffBadLine(init);
      if exists i :: 0 <= i < |init| && ParseLine(init[i]).None? {
        var i :| 0 <= i < |init| && ParseLine(init[i]).None?;
        assert ls[i] == init[i];
      }
      if exists i :: 0 <= i < |ls| && ParseLine(ls[i]).None? {
        var i :| 0 <= i < |ls| && ParseLine(ls[i]).None?;
        if i < |init| {
          assert ParseLine(init[i]).None?;
        }
      }
    }
  }

  /** The name a line declares, if it parses. */
  function NameOf(line: string): Option<string>
  {
    match ParseLine(line)
    case None => None
    case Some((_, name)) => Some(name)
  }

  /** When a name appears on several lines, the hash of its last line is kept. */
  lemma {:induction false} LastLineWins(ls: seq<string>, i: nat)
    requires Hashes(ls).Success? && i < |ls|
    requires forall j :: i < j < |ls| ==> NameOf(ls[j]) != NameOf(ls[i])
    ensures ParseLine(ls[i]).Some?
    ensures var (h, name) := ParseLine(ls[i]).value;
            name in Hashes(ls).value && Hashes(ls).value[name] == h
  {
    var init := ls[..|ls| - 1];
    if i < |ls| - 1 {
      assert init[i] == ls[i];
      LastLineWins(init, i);
    }
  }

  /** Every name in the map comes from some line of the file, with that line's hash. */
  lemma {:induction false} HashesFromLines(ls: seq<string>, name: string)
    requires Hashes(ls).Success? && name in Hashes(ls).value
    ensures exists i :: 0 <= i < |ls| && ParseLine(ls[i]) == Some((Hashes(ls).value[name], name))
  {
    var init := ls[..|ls| - 1];
    var (h, last) := ParseLine(ls[|ls| - 1]).value;
    if name != last {
      HashesFromLines(init, name);
      var i :| 0 <= i < |init| && ParseLine(init[i]) == Some((Hashes(init).value[name], name));
      assert ls[i] == init[i];
    }
  }
}
