/**
 * The console spinner that shows which modules are running: a table from
 * module name to "still running", the percentage of modules done, and
 * the one-line status it redraws on every pass of its animation loop.
 *
 * The animation thread, the lock and the sleeps are not modelled: one
 * pass of the loop is the method `Tick`, and the caller decides how many
 * passes happen and when `running` changes.
 */
module Progress {
  import opened Common
  import opened Text

  /** The ten braille frames of the animation. */
  const Frames: seq<string> :=
    ["\U{280B}", "\U{2819}", "\U{2839}", "\U{2838}", "\U{283C}",
     "\U{2834}", "\U{2826}", "\U{2827}", "\U{2807}", "\U{280F}"]

  /** What `_clear_line` writes: a carriage return, 100 blanks, a carriage return. */
  const ClearLine: string := "\r" + Spaces(100) + "\r"

  const StatusLimit: nat := 50

  /**
   * The status text limited to 50 characters so that the terminal does
   * not wrap: a longer text keeps its first 47 characters and ends in
   * `...`.
   */
  function Truncate(status: string): (r: string)
    ensures |r| <= StatusLimit
    ensures |status| <= StatusLimit ==> r == status
    ensures |status| > StatusLimit ==> |r| == StatusLimit && r[..47] == status[..47] && EndsWith(r, "...")
  {
    if |status| > StatusLimit then status[..47] + "..." else status
  }

  /** Truncating twice changes nothing more. */
  lemma TruncateIdempotent(status: string)
    ensures Truncate(Truncate(status)) == Truncate(status)
  {
  }

  /** The number of modules marked as no longer running. */
  function DoneCount(modules: map<string, bool>): (n: nat)
    ensures n <= |modules|
  {
    var done := set name | name in modules.Keys && !modules[name];
    SubsetCard(done, modules.Keys);
    |done|
  }

  /**
   * `_progress_pct`: 0 with no modules, otherwise the share of modules no
   * longer running, in percent, rounded down.
   */
  function Pct(modules: map<string, bool>): int
  {
    if |modules| == 0 then 0 else DoneCount(modules) * 100 / |modules|
  }

  /**
   * The percentage lies in 0..100; it is 0 with no modules, and with some
   * modules it is 100 exactly when none of them is still running and 0
   * when every one of them is.
   */
  lemma PctSpec(modules: map<string, bool>)
    ensures 0 <= Pct(modules) <= 100
    ensures |modules| == 0 ==> Pct(modules) == 0
    ensures |modules| > 0 ==> (Pct(modules) == 100 <==> forall name :: name in modules ==> !modules[name])
    ensures (forall name :: name in modules ==> modules[name]) ==> Pct(modules) == 0
  {
    var t := |modules|;
    var d := DoneCount(modules);
    var done := set name | name in modules.Keys && !modules[name];
    if t > 0 {
      PercentBounds(d, t);
      SubsetCard(done, modules.Keys);
      if forall name :: name in modules ==> !modules[name] {
        assert done == modules.Keys;
      }
      if d == t {
        assert done == modules.Keys;
      }
    }
    if forall name :: name in modules ==> modules[name] {
      assert done == {};
    }
  }

  lemma PercentBounds(d: nat, t: nat)
    requires 0 < t && d <= t
    ensures 0 <= d * 100 / t <= 100
    ensures d * 100 / t == 100 <==> d == t
  {
    var x := d * 100;
    var q, r := x / t, x % t;
    assert x == q * t + r && 0 <= r < t;
    // (100 - q) * t == 100 * t - x + r, which lies in [r, r + 100 * (t - d)].
    assert (100 - q) * t == 100 * (t - d) + r by { MulSub(100, q, t); }
    FactorBounds(100 - q, t, 100 * (t - d) + r, d == t);
  }

  lemma MulSub(a: int, b: int, t: int)
    ensures (a - b) * t == a * t - b * t
  {
  }

  /** From `k * t == v` with `t > 0`: `k >= 0` when `v >= 0`, `k == 0` when `v < t`, `k > 0` when `v >= t`. */
  lemma FactorBounds(k: int, t: int, v: int, small: bool)
    requires t > 0 && k * t == v && v >= 0
    requires small ==> v < t
    requires !small ==> v >= 100
    ensures k >= 0
    ensures small ==> k == 0
    ensures !small ==> k > 0
  {
  }

  /** The names marked running, in the order they were first set. */
  function Active(names: seq<string>, modules: map<string, bool>): (r: seq<string>)
    ensures |r| <= |names|
    decreases |names|
  {
    if names == [] then []
    else
      var n := names[|names| - 1];
      Active(names[..|names| - 1], modules) + (if n in modules && modules[n] then [n] else [])
  }

  /** A name is listed as active exactly when it is in the table and marked running. */
  lemma {:induction false} ActiveSpec(names: seq<string>, modules: map<string, bool>)
    ensures forall n :: n in Active(names, modules) <==> n in names && n in modules && modules[n]
    decreases |names|
  {
    if names != [] {
      var init := names[..|names| - 1];
      ActiveSpec(init, modules);
      assert names == init + [names[|names| - 1]];
    }
  }

  /** `{pct:3d}`: the number right-aligned in three columns. */
  function Percent3(pct: nat): string
  {
    PadLeft(NatToString(pct), 3)
  }

  const IdleText: string := "Idle.                     "

  /** The line one pass of the animation writes. */
  function SpinLine(frame: string, pct: nat, active: seq<string>): string
  {
    if active != [] then
      "\r" + frame + " [" + Percent3(pct) + "%] Running: " + Truncate(Join(active, ", ")) + "    "
    else
      "\r" + frame + " [" + Percent3(pct) + "%] " + IdleText
  }

  /** The status part of the line is never longer than the limit. */
  lemma SpinLineStatus(frame: string, pct: nat, active: seq<string>)
    requires active != []
    ensures var line := SpinLine(frame, pct, active);
            var head := "\r" + frame + " [" + Percent3(pct) + "%] Running: ";
            var status := Truncate(Join(active, ", "));
            line == head + status + "    " && |status| <= StatusLimit
            && (|Join(active, ", ")| <= StatusLimit ==> status == Join(active, ", "))
  {
  }

  /** `Spinner`. `names` keeps the keys of `modules` in insertion order, as a Python dict does. */
  class Spinner {
    var idx: nat
    var running: bool
    var names: seq<string>
    var modules: map<string, bool>

    ghost predicate Valid()
      reads this
    {
      (forall n :: n in modules <==> n in names)
      && (forall i, j :: 0 <= i < j < |names| ==> names[i] != names[j])
    }

    constructor ()
      ensures idx == 0 && !running
      ensures names == [] && modules == map[]
      ensures Valid()
    {
      idx := 0;
      running := false;
      names := [];
      modules := map[];
    }

    /** `start`: nothing happens while already running. */
    method Start()
      modifies this
      ensures running
      ensures idx == old(idx) && names == old(names) && modules == old(modules)
    {
      if running {
        return;
      }
      running := true;
    }

    /**
     * `stop`: nothing happens while stopped; otherwise the flag is
     * cleared and the line is blanked. `output` is what is written.
     */
    method Stop() returns (output: string)
      modifies this
      ensures !running
      ensures output == (if old(running) then ClearLine else [])
      ensures idx == old(idx) && names == old(names) && modules == old(modules)
    {
      output := [];
      if !running {
        return;
      }
      running := false;
      output := ClearLine;
    }

    /** `set_module_running`: only the named entry changes; a new name goes last. */
    method SetModuleRunning(name: string, val: bool)
      requires Valid()
      modifies this
      ensures Valid()
      ensures modules == old(modules)[name := val]
      ensures names == if name in old(modules) then old(names) else old(names) + [name]
      ensures idx == old(idx) && running == old(running)
    {
      if name !in modules {
        names := names + [name];
      }
      modules := modules[name := val];
    }

    /** `_progress_pct` on the current table. */
    function ProgressPct(): (pct: int)
      reads this
      ensures 0 <= pct <= 100
      ensures |modules| == 0 ==> pct == 0
      ensures |modules| > 0 ==> (pct == 100 <==> forall n :: n in modules ==> !modules[n])
    {
      PctSpec(modules);
      Pct(modules)
    }

    /**
     * One pass of `_spin`: the frame for the current counter, the counter
     * moved on by one, and the line written for the running modules.
     */
    method Tick() returns (line: string)
      requires Valid()
      modifies this
      ensures idx == old(idx) + 1
      ensures line == SpinLine(Frames[old(idx) % |Frames|], Pct(modules), Active(names, modules))
      ensures names == old(names) && modules == old(modules) && running == old(running)
    {
      var frame := Frames[idx % |Frames|];
      idx := idx + 1;
      var pct := ProgressPct();
      var active := Active(names, modules);
      if active != [] {
        var status := Join(active, ", ");
        if |status| > 50 {
          status := status[..47] + "...";
        }
        line := "\r" + frame + " [" + Percent3(pct) + "%] Running: " + status + "    ";
      } else {
        line := "\r" + frame + " [" + Percent3(pct) + "%] " + IdleText;
      }
    }
  }

  /** Ten passes bring the animation back to the same frame. */
  lemma FrameCycle(idx: nat)
    ensures Frames[(idx + 10) % |Frames|] == Frames[idx % |Frames|]
  {
  }
}
