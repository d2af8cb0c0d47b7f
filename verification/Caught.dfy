// The echo-loader seen from both sides: the line that rebuilds a file in the overlay is
// one the analysis reads as a loader's.
module Caught {
  import opened Analyze
  import Echo
  import Loader
  import Verdicts

  lemma LoaderLineIsMarked(before: string, chunk: seq<Echo.Escape>, f: string, behind: string)
    ensures IsLoaderCommand(before + Loader.LoaderLine(chunk, f) + behind)
  {
    var line, marker := Loader.LoaderLine(chunk, f), LOADER_MARKERS[3];
    assert line[..8] == "echo -ne" == marker;
    MarkerOccurs(before, line, behind, 8);
    Verdicts.ContainsExactly(before + line + behind, marker);
  }

  lemma MarkerOccurs(before: string, line: string, behind: string, n: nat)
    requires n <= |line|
    ensures Verdicts.OccursAt(before + line + behind, line[..n], |before|)
  {
  }

  // A source that ran one loader line, alone or inside a longer one, is judged a loader,
  // whatever came before it and whatever comes after.
  lemma LoaderIsCaught(millis: string -> int, h: History, more: History, before: string, chunk: seq<Echo.Escape>,
      f: string, behind: string)
    requires h.Then? && h.last.event == Command
    requires h.last.command == before + Loader.LoaderLine(chunk, f) + behind
    ensures Judge(SignalsOf(SourceRules(millis), Concat(h, more))).kind.Loader?
  {
    var k := SourceRules(millis);
    LoaderLineIsMarked(before, chunk, f, behind);
    assert Loads(k, h.last);
    assert Judge(SignalsOf(k, h)).kind.Loader?;
    VerdictHardens(k, h, more);
  }
}
