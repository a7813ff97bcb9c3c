/** The measurement points of a running job (agent/internal/tools/jobs.go): `progress` appends to and reslices a
    slice whose backing array is shared with the copies that `Get` hands out. */
module JobSamples {
  import opened Common

  const KEEP: nat := 400

  datatype LiveSample = LiveSample(t: real, bps: real, phase: string)

  /** A Go slice: a stretch of an array; it may grow in place up to the array's end. */
  datatype Slice = Slice(arr: array<LiveSample>, off: nat, len: nat)

  ghost predicate InBounds(s: Slice) {
    s.off + s.len <= s.arr.Length
  }

  /** The elements a holder of the slice can see. */
  ghost function View(s: Slice): seq<LiveSample>
    requires InBounds(s)
    reads s.arr
  {
    s.arr[s.off..s.off + s.len]
  }

  /** A slice that was handed out, and what it showed at that moment. */
  datatype Snapshot = Snapshot(slice: Slice, shown: seq<LiveSample>)

  class Job {
    var samples: Slice
    ghost var recorded: seq<LiveSample>    // every point, from the start of the job
    ghost var handedOut: seq<Snapshot>     // every copy ever returned by Get
    ghost var arrays: set<array<LiveSample>>

    /** The live samples are the last 400 points recorded, and every copy still shows what it showed when it was
        handed out: points are only written beyond its end. */
    ghost predicate Valid()
      reads this, arrays
    {
      && samples.arr in arrays && InBounds(samples)
      && View(samples) == LastN(KEEP, recorded)
      && forall i :: 0 <= i < |handedOut| ==> Stable(handedOut[i])
    }

    ghost predicate Stable(c: Snapshot)
      reads this, arrays
    {
      && c.slice.arr in arrays && InBounds(c.slice)
      && View(c.slice) == c.shown
      && (c.slice.arr == samples.arr ==> c.slice.off + c.slice.len <= samples.off + samples.len)
    }

    constructor ()
      ensures Valid() && fresh(arrays) && recorded == [] && handedOut == []
    {
      var a := new LiveSample[0];
      samples, recorded, handedOut, arrays := Slice(a, 0, 0), [], [], {a};
    }

    method Get() returns (c: Slice)
      requires Valid()
      modifies this`handedOut
      ensures Valid() && c == samples
      ensures InBounds(c) && View(c) == LastN(400, recorded)
      ensures handedOut == old(handedOut) + [Snapshot(c, LastN(400, recorded))]
    {
      c := samples;
      handedOut := handedOut + [Snapshot(c, View(c))];
    }

    /** Go's append: in place while the array has room, else into a new array of whatever capacity. */
    method Append(x: LiveSample, spare: nat)
      requires Valid()
      modifies this`samples, this`arrays, samples.arr
      ensures samples.arr in arrays && InBounds(samples) && View(samples) == old(View(samples)) + [x]
      ensures arrays == old(arrays) || (fresh(samples.arr) && arrays == old(arrays) + {samples.arr})
      ensures forall i :: 0 <= i < |handedOut| ==> Stable(handedOut[i])
    {
      var Slice(arr, off, len) := samples;
      ghost var before := View(samples);
      if off + len < arr.Length {
        arr[off + len] := x;
        samples := Slice(arr, off, len + 1);
        assert View(samples)[..len] == before;
      } else {
        var grown := new LiveSample[len + 1 + spare];
        for k := 0 to len
          invariant grown[..k] == before[..k]
          modifies grown
        {
          grown[k] := arr[off + k];
        }
        grown[len] := x;
        samples, arrays := Slice(grown, 0, len + 1), arrays + {grown};
        assert View(samples) == grown[..len] + [x];
      }
    }

    /** The 400-entry reslice: it moves the start of the slice and writes nothing. */
    method Trim()
      requires samples.arr in arrays && InBounds(samples)
      requires forall i :: 0 <= i < |handedOut| ==> Stable(handedOut[i])
      modifies this`samples
      ensures samples.arr in arrays && InBounds(samples) && View(samples) == LastN(KEEP, old(View(samples)))
      ensures forall i :: 0 <= i < |handedOut| ==> Stable(handedOut[i])
    {
      if samples.len > KEEP {
        ghost var all := View(samples);
        samples := Slice(samples.arr, samples.off + (samples.len - KEEP), KEEP);
        assert View(samples) == LastN(KEEP, all);
      }
    }

    method Progress(t: real, bps: real, phase: string, spare: nat)
      requires Valid()
      modifies this`samples, this`recorded, this`arrays, arrays
      ensures Valid() && fresh(arrays - old(arrays))
      ensures recorded == if bps > 0.0 then old(recorded) + [LiveSample(t, bps, phase)] else old(recorded)
    {
      if bps > 0.0 {
        var x := LiveSample(t, bps, phase);
        LastNAppend(KEEP, recorded, x);
        Append(x, spare);
        recorded := recorded + [x];
        Trim();
      }
    }
  }
}
