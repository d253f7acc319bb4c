/**
 * Halters: the lifecycle of goroutines, linked into a graph along which a
 * request to stop travels downstream.
 */
module Lifecycle {
  import opened Graphs

  /** The halters and their links downstream, as a graph. */
  ghost function Links(halters: set<Halter>): (g: Graph<Halter>)
    reads halters`downstream
  {
    map h | h in halters :: h.downstream
  }

  /** What holds between any two calls: whoever is done was asked to stop, and links are mirrored. */
  ghost predicate Sound(halters: set<Halter>)
    reads halters
  {
    forall h :: h in halters ==>
      && (h.done ==> h.reqStop)
      && forall u :: u in h.upstream && u in halters ==> h in u.downstream
  }

  class Halter {
    var ready: bool
    var reqStop: bool
    var done: bool
    var upstream: set<Halter>
    var downstream: set<Halter>

    constructor ()
      ensures !ready && !reqStop && !done && upstream == {} && downstream == {}
    {
      ready, reqStop, done := false, false, false;
      upstream, downstream := {}, {};
    }

    /**
     * Links d downstream of this, on both sides. A graph without cycles stays so if and
     * only if d did not lead to this.
     */
    method AddDownstream(d: Halter, ghost halters: set<Halter>)
      requires this in halters && d in halters && Sound(halters)
      modifies this`downstream, d`upstream
      ensures downstream == old(downstream) + {d} && d.upstream == old(d.upstream) + {this}
      ensures Sound(halters)
      ensures old(Closed(Links(halters))) ==>
        && Closed(Links(halters))
        && (Acyclic(Links(halters)) <==>
              old(Acyclic(Links(halters))) && !old(Reaches(Links(halters), d, this)))
    {
      hide Reaches, Acyclic;
      ghost var g := Links(halters);
      if Closed(g) {
        LinkKeepsAcyclicIff(g, this, d);
      }
      downstream := downstream + {d};
      d.upstream := d.upstream + {this};
      assert Links(halters) == WithLink(g, this, d);
    }

    method RemoveDownstream(d: Halter, ghost halters: set<Halter>)
      requires this in halters && d in halters && Sound(halters)
      modifies this`downstream, d`upstream
      ensures downstream == old(downstream) - {d} && d.upstream == old(d.upstream) - {this}
      ensures Sound(halters)
      ensures old(Acyclic(Links(halters))) ==> Acyclic(Links(halters))
    {
      ghost var g := Links(halters);
      downstream := downstream - {d};
      d.upstream := d.upstream - {this};
      FewerLinks(g, Links(halters));
    }

    method MarkReady()
      modifies this`ready
      ensures ready
    {
      ready := true;
    }

    /**
     * Asks this halter and, recursively, all downstream of it to stop, and no other. It
     * ends because each step downstream reaches fewer halters.
     */
    method RequestStop(ghost halters: set<Halter>)
      requires this in halters && Closed(Links(halters)) && Acyclic(Links(halters))
      modifies halters`reqStop
      ensures forall x :: x in halters ==> (x.reqStop <==> old(x.reqStop) || Reaches(Links(halters), this, x))
      ensures reqStop
      decreases |ReachSet(Links(halters), this)|
    {
      hide Reaches, Acyclic, ReachSet;
      ghost var g := Links(halters);
      reqStop := true;
      var left := downstream;
      while left != {}
        invariant left <= downstream == g[this] && reqStop && Links(halters) == g
        invariant forall x :: x in halters ==>
          (x.reqStop <==> old(x.reqStop) || x == this || FromOne(g, downstream - left, x))
        decreases left
      {
        var d :| d in left;
        assert d in g;
        ReachesFewer(g, this, d);
        d.RequestStop(halters);
        ghost var before := downstream - left;
        left := left - {d};
        assert downstream - left == before + {d};
      }
      assert downstream - left == downstream;
      forall x | x in halters
        ensures x == this || FromOne(g, downstream, x) <==> Reaches(g, this, x)
      {
        ReachesStep(g, this, x);
      }
    }

    /** Waits until all downstream are done, which may be never. */
    method WaitForDownstreamDone(ghost halters: set<Halter>) returns (returned: bool)
      requires this in halters && downstream <= halters && Sound(halters)
      modifies halters`upstream
      ensures returned <==> forall d :: d in downstream ==> d.done
      ensures Sound(halters)
    {
      var left := downstream;
      while left != {}
        invariant left <= downstream && Sound(halters)
        invariant forall d :: d in downstream - left ==> d.done
        decreases left
      {
        var d :| d in left;
        if !d.done {
          return false;
        }
        d.upstream := d.upstream - {this};
        left := left - {d};
      }
      return true;
    }

    /** Stops everything downstream, and is done only once all directly downstream are. */
    method MarkDone(ghost halters: set<Halter>) returns (returned: bool)
      requires this in halters && Closed(Links(halters)) && Acyclic(Links(halters)) && Sound(halters)
      modifies halters`reqStop, halters`upstream, this`done
      ensures Sound(halters)
      ensures forall x :: x in halters ==> (x.reqStop <==> old(x.reqStop) || Reaches(Links(halters), this, x))
      ensures returned <==> forall d :: d in downstream ==> old(d.done)
      ensures returned ==> done && reqStop
      ensures !returned ==> done == old(done)
    {
      hide Reaches, Acyclic;
      ghost var g := Links(halters);
      RequestStop(halters);
      assert downstream == g[this] && forall d :: d in g[this] ==> d in g;
      returned := WaitForDownstreamDone(halters);
      if returned {
        done := true;
      }
    }

    /** The same without the wait. */
    method MarkDoneNoBlock(ghost halters: set<Halter>)
      requires this in halters && Closed(Links(halters)) && Acyclic(Links(halters)) && Sound(halters)
      modifies halters`reqStop, this`done
      ensures Sound(halters) && done && reqStop
      ensures forall x :: x in halters ==> (x.reqStop <==> old(x.reqStop) || Reaches(Links(halters), this, x))
    {
      hide Reaches, Acyclic;
      RequestStop(halters);
      done := true;
    }

    /** A cancelled context ends this halter alone: what is downstream is not told. */
    method ContextCancelled(ghost halters: set<Halter>)
      requires this in halters && Sound(halters)
      modifies this`reqStop, this`done
      ensures Sound(halters) && reqStop && done
    {
      reqStop := true;
      done := true;
    }
  }

  ghost predicate FromOne(g: Graph<Halter>, hs: set<Halter>, x: Halter)
  {
    exists d :: d in hs && Reaches(g, d, x)
  }
}
