/** Spec selection in `main` of generate_sfx.py: `--only` keeps the named
    sounds (every name must exist, else argparse reports the first unknown one
    and exits), then `--skip` removes the named ones; both keep catalogue order. */
module SfxSelect {
  import opened Results
  import opened SoundCatalog

  datatype SelectError = UnknownSound(name: string)

  /** `a` is `b` with some elements left out, order kept. */
  predicate IsSubsequence<T(==)>(a: seq<T>, b: seq<T>)
    decreases |b|
  {
    |a| == 0 || (|b| > 0 && ((a[0] == b[0] && IsSubsequence(a[1..], b[1..])) || IsSubsequence(a, b[1..])))
  }

  /** The specs whose name is (keep = true) or is not (keep = false) among `names`,
      in their original order: `[s for s in specs if s.name in names]` and its
      `not in` twin. */
  function FilterByName(specs: seq<SoundSpec>, names: seq<string>, keep: bool): (r: seq<SoundSpec>)
    ensures IsSubsequence(r, specs)
    ensures forall s :: multiset(r)[s] == if (s.name in names) == keep then multiset(specs)[s] else 0
  {
    if |specs| == 0 then []
    else
      var rest := FilterByName(specs[1..], names, keep);
      assert specs == [specs[0]] + specs[1..];
      if (specs[0].name in names) == keep then [specs[0]] + rest else rest
  }

  /** Index of the first name in `only` that names no spec. */
  function FirstUnknown(only: seq<string>, valid: set<string>): (r: Option<nat>)
    ensures r.Some? ==> r.value < |only| && only[r.value] !in valid
                        && forall j :: 0 <= j < r.value ==> only[j] in valid
    ensures r.None? <==> forall j :: 0 <= j < |only| ==> only[j] in valid
  {
    if |only| == 0 then None
    else if only[0] !in valid then Some(0)
    else
      match FirstUnknown(only[1..], valid)
      case None => None
      case Some(i) => Some(i + 1)
  }

  function NameSet(specs: seq<SoundSpec>): set<string> {
    set s | s in specs :: s.name
  }

  /** Whether a spec survives `--only` and `--skip`; an empty `only` is the
      option left out. */
  predicate Selected(s: SoundSpec, only: seq<string>, skip: seq<string>) {
    (|only| == 0 || s.name in only) && s.name !in skip
  }

  /** The spec filtering of `main`. */
  function Select(all: seq<SoundSpec>, only: seq<string>, skip: seq<string>): (r: Result<seq<SoundSpec>, SelectError>)
    ensures r.Err? <==> |only| > 0 && exists n :: n in only && n !in NameSet(all)
    ensures r.Err? ==> exists i :: 0 <= i < |only| && only[i] == r.error.name && r.error.name !in NameSet(all)
                                   && forall j :: 0 <= j < i ==> only[j] in NameSet(all)
    ensures r.Ok? ==> IsSubsequence(r.value, all)
    ensures r.Ok? ==> forall s :: multiset(r.value)[s] == if Selected(s, only, skip) then multiset(all)[s] else 0
  {
    var afterOnly :-
      if |only| == 0 then Ok(all)
      else
        match FirstUnknown(only, NameSet(all))
        case Some(i) => Err(UnknownSound(only[i]))
        case None => Ok(FilterByName(all, only, true));
    var r := FilterByName(afterOnly, skip, false);
    SubsequenceReflexive(all);
    SubsequenceTransitive(r, afterOnly, all);
    Ok(r)
  }

  // ---------------------------------------------------------------------------
  // Lemmas
  // ---------------------------------------------------------------------------

  lemma {:induction false} SubsequenceReflexive<T>(a: seq<T>)
    ensures IsSubsequence(a, a)
  {
    if |a| > 0 {
      SubsequenceReflexive(a[1..]);
    }
  }

  lemma {:induction false} SubsequenceTransitive<T>(a: seq<T>, b: seq<T>, c: seq<T>)
    requires IsSubsequence(a, b) && IsSubsequence(b, c)
    ensures IsSubsequence(a, c)
    decreases |c|
  {
    if |a| == 0 {
    } else if |c| == 0 {
    } else if |b| > 0 && b[0] == c[0] && IsSubsequence(b[1..], c[1..]) {
      if a[0] == b[0] && IsSubsequence(a[1..], b[1..]) {
        SubsequenceTransitive(a[1..], b[1..], c[1..]);
      } else {
        SubsequenceTransitive(a, b[1..], c[1..]);
      }
    } else {
      SubsequenceTransitive(a, b, c[1..]);
    }
  }

  /** A spec is in the selection exactly when it is in the catalogue and
      survives both options. */
  lemma SelectMembership(all: seq<SoundSpec>, only: seq<string>, skip: seq<string>, s: SoundSpec)
    requires Select(all, only, skip).Ok?
    ensures s in Select(all, only, skip).value <==> s in all && Selected(s, only, skip)
  {
    var r := Select(all, only, skip).value;
    assert s in r <==> multiset(r)[s] > 0;
    assert s in all <==> multiset(all)[s] > 0;
  }

  /** `--skip` never fails: names it lists that no spec has are ignored. */
  lemma SkipNeverFails(all: seq<SoundSpec>, skip: seq<string>)
    ensures Select(all, [], skip).Ok?
    ensures forall s :: s in Select(all, [], skip).value <==> s in all && s.name !in skip
  {
    forall s ensures s in Select(all, [], skip).value <==> s in all && s.name !in skip {
      SelectMembership(all, [], skip, s);
    }
  }

  /** Without options every sound is generated, in catalogue order. */
  lemma NoOptionsSelectsAll(all: seq<SoundSpec>)
    ensures Select(all, [], []) == Ok(all)
  {
    var r := Select(all, [], []).value;
    FilterKeepsAll(all, [], false);
  }

  /** A filter every spec passes changes nothing: `--only` naming every spec
      (keep), or `--skip` naming none of them (drop). */
  lemma {:induction false} FilterKeepsAll(specs: seq<SoundSpec>, names: seq<string>, keep: bool)
    requires forall i :: 0 <= i < |specs| ==> (specs[i].name in names) == keep
    ensures FilterByName(specs, names, keep) == specs
  {
    if |specs| > 0 {
      FilterKeepsAll(specs[1..], names, keep);
      assert specs == [specs[0]] + specs[1..];
    }
  }

  /** Asking for a sound that does not exist
      is an error naming it, even when other names are fine. */
  lemma UnknownNameReported(all: seq<SoundSpec>, good: string, bad: string, skip: seq<string>)
    requires good in NameSet(all) && bad !in NameSet(all)
    ensures Select(all, [good, bad], skip) == Err(UnknownSound(bad))
  {
    assert FirstUnknown([good, bad], NameSet(all)) == Some(1) by {
      assert [good, bad][1..] == [bad];
    }
  }
}
