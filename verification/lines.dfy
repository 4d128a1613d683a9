/** Line framing of a byte stream as `BufRead::lines` does it, and the
    events a line reader hands to its loop. */
module Lines {
  import opened Text

  /** One item of a `lines()` iterator: a line with its terminator
      removed, or an I/O error. The end of the sequence is end of stream. */
  datatype ReadEvent = Line(text: string) | ReadError

  /** A line that came with a `\n` also loses one `\r` before it. */
  function StripCR(l: string): string {
    if |l| > 0 && l[|l| - 1] == '\r' then l[..|l| - 1] else l
  }

  /** The lines `BufRead::lines` yields for a stream holding `s` and then
      ending: split at each `\n`, drop one `\r` before a `\n`, and yield a
      final unterminated piece only if it is not empty. */
  function SplitLines(s: string): (ls: seq<string>)
    ensures forall i :: 0 <= i < |ls| ==> '\n' !in ls[i]
    decreases |s|
  {
    if s == [] then []
    else
      var i := IndexOf(s, '\n');
      if i == |s| then [s]
      else [StripCR(s[..i])] + SplitLines(s[i + 1..])
  }

  /** The read events a stream holding `s` produces when no I/O error occurs. */
  function Frame(s: string): seq<ReadEvent> {
    var ls := SplitLines(s);
    seq(|ls|, i requires 0 <= i < |ls| => Line(ls[i]))
  }

  /** A line that survives being written with `writeln!` and read back:
      no `\n` inside and no `\r` at its end. */
  predicate LineSafe(l: string) {
    '\n' !in l && (|l| == 0 || l[|l| - 1] != '\r')
  }

  /** What `writeln!` puts on the wire for each line in turn. */
  function Unlines(ls: seq<string>): string {
    if ls == [] then [] else ls[0] + "\n" + Unlines(ls[1..])
  }

  /** Reading back what was written line by line gives the same lines. */
  lemma {:induction false} SplitUnlines(ls: seq<string>)
    requires forall i :: 0 <= i < |ls| ==> LineSafe(ls[i])
    ensures SplitLines(Unlines(ls)) == ls
  {
    if ls != [] {
      var s := Unlines(ls);
      var rest := Unlines(ls[1..]);
      assert s == ls[0] + ['\n'] + rest;
      IndexOfAfterPrefix(ls[0], '\n', rest);
      assert s[..|ls[0]|] == ls[0];
      assert s[|ls[0]| + 1..] == rest;
      SplitUnlines(ls[1..]);
    }
  }

  /** A single safe line written with `writeln!` is read back as itself. */
  lemma SplitOneLine(l: string)
    requires LineSafe(l)
    ensures SplitLines(l + "\n") == [l]
    ensures Frame(l + "\n") == [Line(l)]
  {
    SplitUnlines([l]);
    assert Unlines([l]) == l + "\n";
  }
}
