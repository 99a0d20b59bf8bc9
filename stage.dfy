/** The channel loop and the clean-up of clean_cells (step5.py:19-21 and
    117-125) over an abstract file system: `existing` holds the channels
    whose clean file is present before the call, `failing` the channels
    whose processing raises (ending the whole call, as an exception does),
    and `partial` those of them that raise only after step5.py:100 has
    created their clean file, which then stays on disk. A processed channel
    writes its clean file. */
module Stage {

  /** The channels processed so far, in order, whether one raised, and the
      clean file the raising channel left behind, if any. */
  datatype Pass = Pass(processed: seq<nat>, raised: bool, stranded: set<nat>)

  /** The state of the channel loop once the channels below k have been
      visited. */
  function Passes(existing: set<nat>, failing: set<nat>, partial: set<nat>, k: nat): Pass {
    if k == 0 then Pass([], false, {})
    else
      var p := Passes(existing, failing, partial, k - 1);
      var c := k - 1;
      if p.raised || c in existing then p
      else if c in failing then Pass(p.processed, true, if c in partial then {c} else {})
      else Pass(p.processed + [c], false, {})
  }

  predicate AllComplete(nColors: nat, outputs: set<nat>) {
    forall c :: 0 <= c < nColors ==> c in outputs
  }

  /** The clean files present once the loop is in state p. */
  function Written(existing: set<nat>, p: Pass): set<nat> {
    existing + (set c | c in p.processed) + p.stranded
  }

  /** Which of the intermediate directories dir_output/volumes and
      dir_output/cells exist. */
  datatype Intermediates = Intermediates(volumes: bool, cells: bool)

  /** shutil.rmtree of volumes and then of cells (step5.py:124-125): the
      new state of the two directories, and whether the removal raised.
      As written, a missing directory raises FileNotFoundError and ends the
      call; with `ignoreMissing` (rmtree's ignore_errors) it is passed
      over. */
  function RemoveIntermediates(d: Intermediates, ignoreMissing: bool): (r: (Intermediates, bool))
    ensures !r.0.volumes && (d.volumes || ignoreMissing ==> !r.0.cells)
    ensures r.1 <==> !ignoreMissing && !(d.volumes && d.cells)
  {
    if ignoreMissing then (Intermediates(false, false), false)
    else if !d.volumes then (d, true)
    else if !d.cells then (Intermediates(false, false), true)
    else (Intermediates(false, false), false)
  }

  /** What one call of clean_cells leaves: the channels it processed, the
      clean files present, whether it raised, and the directories left. */
  datatype Run = Run(processed: seq<nat>, outputs: set<nat>, raised: bool, dirs: Intermediates)

  /** One call: the channel loop, then, when no channel raised and every
      clean file is present, the removal of the intermediate directories. */
  function RunOf(nColors: nat, existing: set<nat>, failing: set<nat>, partial: set<nat>,
                 dirs: Intermediates, ignoreMissing: bool): Run
  {
    var p := Passes(existing, failing, partial, nColors);
    var outputs := Written(existing, p);
    if p.raised || !AllComplete(nColors, outputs) then Run(p.processed, outputs, p.raised, dirs)
    else
      var (after, raised) := RemoveIntermediates(dirs, ignoreMissing);
      Run(p.processed, outputs, raised, after)
  }

  /** clean_cells with the channel bodies abstracted: which channels are
      processed, which clean files exist afterwards, whether the call
      raised, and which intermediate directories are left. */
  method RunStage(nColors: nat, existing: set<nat>, failing: set<nat>, partial: set<nat>, dirs: Intermediates)
    returns (processed: seq<nat>, outputs: set<nat>, raised: bool, dirsAfter: Intermediates)
    ensures Run(processed, outputs, raised, dirsAfter) == RunOf(nColors, existing, failing, partial, dirs, false)
  {
    processed, outputs, raised, dirsAfter := [], existing, false, dirs;
    var color := 0;
    while color < nColors && !raised
      invariant color <= nColors
      invariant processed == Passes(existing, failing, partial, color).processed
      invariant raised == Passes(existing, failing, partial, color).raised
      invariant outputs == Written(existing, Passes(existing, failing, partial, color))
      invariant !raised ==> Passes(existing, failing, partial, color).stranded == {}
    {
      if color !in existing {
        if color in failing {
          if color in partial {
            outputs := outputs + {color};
          }
          raised := true;
        } else {
          assert (set c | c in processed + [color]) == (set c | c in processed) + {color};
          processed := processed + [color];
          outputs := outputs + {color};
        }
      }
      color := color + 1;
    }
    PassesStayRaised(existing, failing, partial, color, nColors);
    if raised {
      return;
    }
    var completion := true;
    for c := 0 to nColors
      invariant completion <==> forall k :: 0 <= k < c ==> k in outputs
    {
      if c !in outputs {
        completion := false;
      }
    }
    if completion {
      if !dirsAfter.volumes {
        raised := true;
        return;
      }
      dirsAfter := dirsAfter.(volumes := false);
      if !dirsAfter.cells {
        raised := true;
        return;
      }
      dirsAfter := dirsAfter.(cells := false);
    }
  }

  /** The intermediate directories are touched only by a call in which no
      channel raised and every clean file is present (step5.py:117-125). */
  lemma RemovedOnlyWhenComplete(nColors: nat, existing: set<nat>, failing: set<nat>, partial: set<nat>,
                                dirs: Intermediates, ignoreMissing: bool)
    ensures var r := RunOf(nColors, existing, failing, partial, dirs, ignoreMissing);
            r.dirs != dirs ==> !Passes(existing, failing, partial, nColors).raised && AllComplete(nColors, r.outputs)
    ensures var r := RunOf(nColors, existing, failing, partial, dirs, ignoreMissing);
            !r.raised ==> r.dirs == Intermediates(false, false) && AllComplete(nColors, r.outputs)
  {
    CleanupUnlessRaised(nColors, existing, failing, partial);
  }

  /** As written: after a call that raised nothing, a second call
      processes no channel and changes no clean file, but it then raises
      at step5.py:124, because the first call removed the intermediate
      directories. */
  lemma RerunRaises(nColors: nat, existing: set<nat>, failing: set<nat>, partial: set<nat>,
                    dirs: Intermediates, failing2: set<nat>, partial2: set<nat>)
    requires !RunOf(nColors, existing, failing, partial, dirs, false).raised
    ensures var first := RunOf(nColors, existing, failing, partial, dirs, false);
            var second := RunOf(nColors, first.outputs, failing2, partial2, first.dirs, false);
            second.raised && second.processed == [] && second.outputs == first.outputs
  {
    var first := RunOf(nColors, existing, failing, partial, dirs, false);
    RemovedOnlyWhenComplete(nColors, existing, failing, partial, dirs, false);
    AllSkipped(first.outputs, failing2, partial2, nColors, nColors);
    assert Written(first.outputs, Pass([], false, {})) == first.outputs;
  }

  /** As intended, with missing directories passed over: a second call
      after one that raised nothing changes nothing at all. */
  lemma RerunIdempotent(nColors: nat, existing: set<nat>, failing: set<nat>, partial: set<nat>,
                        dirs: Intermediates, failing2: set<nat>, partial2: set<nat>)
    requires !RunOf(nColors, existing, failing, partial, dirs, true).raised
    ensures var first := RunOf(nColors, existing, failing, partial, dirs, true);
            RunOf(nColors, first.outputs, failing2, partial2, first.dirs, true) == Run([], first.outputs, false, first.dirs)
  {
    var first := RunOf(nColors, existing, failing, partial, dirs, true);
    RemovedOnlyWhenComplete(nColors, existing, failing, partial, dirs, true);
    AllSkipped(first.outputs, failing2, partial2, nColors, nColors);
    assert Written(first.outputs, Pass([], false, {})) == first.outputs;
  }

  /** Once a channel has raised, later channels are not visited. */
  lemma {:induction false} PassesStayRaised(existing: set<nat>, failing: set<nat>, partial: set<nat>, k: nat, m: nat)
    requires k <= m && (k < m ==> Passes(existing, failing, partial, k).raised)
    ensures Passes(existing, failing, partial, m) == Passes(existing, failing, partial, k)
  {
    if k < m {
      PassesStayRaised(existing, failing, partial, k, m - 1);
    }
  }

  /** Channels below k in increasing order, none of them in `skipped`. */
  predicate IncreasingOutside(p: seq<nat>, k: nat, skipped: set<nat>) {
    (forall a, b :: 0 <= a < b < |p| ==> p[a] < p[b]) &&
    (forall a :: 0 <= a < |p| ==> p[a] < k && p[a] !in skipped)
  }

  /** The processed channels are visited in increasing order, and none of
      them already had a clean file or raised. */
  lemma {:induction false} PassesSkipExisting(existing: set<nat>, failing: set<nat>, partial: set<nat>, k: nat)
    ensures IncreasingOutside(Passes(existing, failing, partial, k).processed, k, existing + failing)
  {
    if k > 0 {
      PassesSkipExisting(existing, failing, partial, k - 1);
      var prev := Passes(existing, failing, partial, k - 1);
      var c := k - 1;
      if !prev.raised && c !in existing && c !in failing {
        var p := prev.processed + [c];
        assert forall a :: 0 <= a < |p| ==> p[a] == if a < |prev.processed| then prev.processed[a] else c;
      }
    }
  }

  /** c is the first channel without a clean file whose processing raises. */
  predicate FirstFailing(existing: set<nat>, failing: set<nat>, c: nat) {
    c !in existing && c in failing && forall d :: 0 <= d < c ==> d in existing || d !in failing
  }

  /** The call raises exactly when some channel below k without a clean
      file fails. If none does, every channel without a clean file is
      processed and nothing is left behind. If one does, the first such
      channel c ends the loop: exactly the channels below c without a clean
      file were processed, and c leaves its clean file when it raised after
      creating it. */
  lemma {:induction false} PassesOutcome(existing: set<nat>, failing: set<nat>, partial: set<nat>, k: nat)
    ensures var p := Passes(existing, failing, partial, k);
            (p.raised <==> exists c :: 0 <= c < k && c !in existing && c in failing) &&
            (!p.raised ==> p.stranded == {} && forall c :: 0 <= c < k ==> (c in p.processed <==> c !in existing)) &&
            (p.raised ==> exists c :: 0 <= c < k && FirstFailing(existing, failing, c) &&
                                     p.stranded == (if c in partial then {c} else {}) &&
                                     forall d :: d in p.processed <==> 0 <= d < c && d !in existing)
  {
    if k > 0 {
      PassesOutcome(existing, failing, partial, k - 1);
      PassesSkipExisting(existing, failing, partial, k - 1);
      var prev := Passes(existing, failing, partial, k - 1);
      var c := k - 1;
      if !prev.raised && c !in existing && c in failing {
        assert FirstFailing(existing, failing, c);
      }
    }
  }

  /** A call that raised nothing leaves every clean file, so its
      completion test passes.
      A call that raised leaves the raising channel without its clean file
      unless that channel raised after creating it; when no failing channel
      is one of those, clean-up happens exactly when no channel raised. */
  lemma CleanupUnlessRaised(nColors: nat, existing: set<nat>, failing: set<nat>, partial: set<nat>)
    ensures var p := Passes(existing, failing, partial, nColors);
            (!p.raised ==> AllComplete(nColors, Written(existing, p))) &&
            (p.raised && p.stranded == {} ==> !AllComplete(nColors, Written(existing, p)))
    ensures failing * partial == {} ==>
              var p := Passes(existing, failing, partial, nColors);
              AllComplete(nColors, Written(existing, p)) <==> !p.raised
  {
    var p := Passes(existing, failing, partial, nColors);
    PassesOutcome(existing, failing, partial, nColors);
    if p.raised {
      var c :| 0 <= c < nColors && FirstFailing(existing, failing, c) &&
               p.stranded == (if c in partial then {c} else {}) &&
               forall d :: d in p.processed <==> 0 <= d < c && d !in existing;
      if failing * partial == {} {
        assert c !in partial;
      }
      if p.stranded == {} {
        assert c !in Written(existing, p);
      }
    }
  }

  /** The channel loop of a second call, after a call in which no channel
      raised, skips every channel, whatever would fail. */
  lemma Rerun(nColors: nat, existing: set<nat>, failing: set<nat>, partial: set<nat>,
              failing2: set<nat>, partial2: set<nat>)
    requires !Passes(existing, failing, partial, nColors).raised
    ensures var again := Passes(Written(existing, Passes(existing, failing, partial, nColors)), failing2, partial2, nColors);
            again == Pass([], false, {})
  {
    var written := Written(existing, Passes(existing, failing, partial, nColors));
    PassesOutcome(existing, failing, partial, nColors);
    AllSkipped(written, failing2, partial2, nColors, nColors);
  }

  /** After a call whose raising channel left a clean file behind, a
      second call in which nothing raises never processes that channel
      again, raises nothing, and so goes on to remove the intermediate
      directories, which a raising first call left in place:
      the file written in part at step5.py:100-115 is taken for complete. */
  lemma RerunKeepsStrandedFile(nColors: nat, existing: set<nat>, failing: set<nat>, partial: set<nat>,
                               partial2: set<nat>)
    ensures var first := Passes(existing, failing, partial, nColors);
            var written := Written(existing, first);
            var again := Passes(written, {}, partial2, nColors);
            !again.raised &&
            (forall c :: c in first.stranded ==> c !in again.processed) &&
            AllComplete(nColors, Written(written, again)) &&
            RunOf(nColors, written, {}, partial2, Intermediates(true, true), false) ==
              Run(again.processed, Written(written, again), false, Intermediates(false, false))
  {
    var first := Passes(existing, failing, partial, nColors);
    var written := Written(existing, first);
    var again := Passes(written, {}, partial2, nColors);
    PassesOutcome(written, {}, partial2, nColors);
    PassesSkipExisting(written, {}, partial2, nColors);
    forall c | c in first.stranded
      ensures c !in again.processed
    {
      assert c in written;
    }
  }

  lemma {:induction false} AllSkipped(existing: set<nat>, failing: set<nat>, partial: set<nat>, k: nat, nColors: nat)
    requires k <= nColors && AllComplete(nColors, existing)
    ensures Passes(existing, failing, partial, k) == Pass([], false, {})
  {
    if k > 0 {
      AllSkipped(existing, failing, partial, k - 1, nColors);
    }
  }
}
