/** Font resolution of `load_font` in composite.py: the monospaced candidates
    are tried in order; the first that exists and that FreeType loads at the
    requested size is used, otherwise Pillow's built-in default font. */
module Fonts {
  import opened Results
  import opened Search

  const MonoFonts: seq<string> := [
    "/System/Library/Fonts/SFMono-Bold.otf",
    "/System/Library/Fonts/Menlo.ttc",
    "/System/Library/Fonts/Courier.dfont"
  ]

  datatype Font = TrueType(path: string, size: int) | DefaultFont

  /** A candidate is usable when the file exists and loading it at `size` does
      not raise OSError or ValueError (`loads` lists the pairs that load). */
  predicate Usable(path: string, size: int, present: set<string>, loads: set<(string, int)>) {
    path in present && (path, size) in loads
  }

  function LoadFont(size: int, present: set<string>, loads: set<(string, int)>): (f: Font)
    ensures f.TrueType? ==> f.size == size
    ensures f.TrueType? ==> exists i :: 0 <= i < |MonoFonts| && MonoFonts[i] == f.path
                                        && Usable(f.path, size, present, loads)
                                        && forall j :: 0 <= j < i ==> !Usable(MonoFonts[j], size, present, loads)
    ensures f.DefaultFont? <==> forall i :: 0 <= i < |MonoFonts| ==> !Usable(MonoFonts[i], size, present, loads)
  {
    var usable := set p | p in MonoFonts && Usable(p, size, present, loads);
    match FirstIn(MonoFonts, usable)
    case Some(p) => TrueType(p, size)
    case None => DefaultFont
  }

  /** An existing first candidate that loads always wins, whatever else exists. */
  lemma FirstCandidateWins(size: int, present: set<string>, loads: set<(string, int)>)
    requires Usable(MonoFonts[0], size, present, loads)
    ensures LoadFont(size, present, loads) == TrueType(MonoFonts[0], size)
  {
  }

  /** A candidate that exists but fails to load is passed over. */
  lemma BrokenCandidateSkipped(size: int, present: set<string>, loads: set<(string, int)>)
    requires MonoFonts[0] in present && (MonoFonts[0], size) !in loads
    requires Usable(MonoFonts[1], size, present, loads)
    ensures LoadFont(size, present, loads) == TrueType(MonoFonts[1], size)
  {
  }
}
