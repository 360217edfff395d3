/** The dashboard at the end of a run: one ingest call for each request the backend applied. */
module DashboardRuns {
  import opened ByteStrings
  import opened Options
  import opened Store
  import FairBatch
  import opened Pipeline
  import opened DeliveryOrder
  import opened Dashboard
  import opened ExactlyOnce

  lemma ItemsConcat(a: seq<Record>, b: seq<Record>)
    ensures Items(a + b) == Items(a) + Items(b)
  {}

  /** One more request: the fold over everything delivered goes on where it was. */
  lemma OneMoreRequest(requests: seq<Request>, applied: seq<nat>, i: nat, t: Bytes, norm: Bytes -> Bytes,
                       before: Option<Bytes>)
    requires i < |applied|
    ensures var batch := if applied[i] < |requests| then requests[applied[i]].batch else [];
      LastOf(Items(Delivered(requests, applied[..i + 1])), t, norm, before) ==
      LastOf(Items(batch), t, norm, LastOf(Items(Delivered(requests, applied[..i])), t, norm, before))
  {
    var batch := if applied[i] < |requests| then requests[applied[i]].batch else [];
    var done := Delivered(requests, applied[..i]);
    assert applied[..i + 1][..i] == applied[..i];
    assert Delivered(requests, applied[..i + 1]) == done + batch;
    ItemsConcat(done, batch);
    LastOfConcat(Items(done), Items(batch), t, norm, before);
  }

  /** The applied requests ingested one after the other leave in every field what folding all their
      records would. */
  method Replay(d: DashboardState, requests: seq<Request>, applied: seq<nat>, norm: Bytes -> Bytes)
    modifies d
    ensures forall t :: t in FairBatch.ENGINE_TYPES ==>
              d.Field(t) == LastOf(Items(Delivered(requests, applied)), t, norm, old(d.Field(t)))
  {
    var i := 0;
    while i < |applied|
      invariant 0 <= i <= |applied|
      invariant forall t :: t in FairBatch.ENGINE_TYPES ==>
                  d.Field(t) == LastOf(Items(Delivered(requests, applied[..i])), t, norm, old(d.Field(t)))
    {
      forall t | t in FairBatch.ENGINE_TYPES
        ensures var batch := if applied[i] < |requests| then requests[applied[i]].batch else [];
          LastOf(Items(Delivered(requests, applied[..i + 1])), t, norm, old(d.Field(t))) ==
          LastOf(Items(batch), t, norm, d.Field(t))
      {
        OneMoreRequest(requests, applied, i, t, norm, old(d.Field(t)));
      }
      if applied[i] < |requests| {
        var status := d.HandleIngest(Some(Items(requests[applied[i]].batch)), norm);
      }
      i := i + 1;
    }
    assert applied[..i] == applied;
  }

  /** After a run in which requests are applied exactly when answered 200, each field of a dashboard
      that received them shows the newest of the records of its type that were applied: the n-th saved
      one, when n were. */
  method DashboardAfterRun(requests: seq<Request>, applied: seq<nat>, norm: Bytes -> Bytes,
                           ghost c: Config, ghost steps: seq<Step>)
    returns (d: DashboardState)
    requires Possible(c, INITIAL, steps) && AllFaithful(c, INITIAL, steps)
    requires requests == After(c, INITIAL, steps).requests && applied == After(c, INITIAL, steps).applied
    requires forall r :: r in Delivered(requests, applied) ==> norm(r.dataType) == r.dataType
    ensures fresh(d)
    ensures forall t :: t in FairBatch.ENGINE_TYPES ==>
              var n, saved := |OfType(Delivered(requests, applied), t)|, SavedOfType(After(c, INITIAL, steps), t);
              n <= |saved| && d.Field(t) == if n == 0 then None else Some(saved[n - 1].payload)
  {
    hide Possible, After, AllFaithful, Delivered, Items, LastOf, OfType, SavedOfType;
    d := new DashboardState();
    Replay(d, requests, applied, norm);
    forall t | t in FairBatch.ENGINE_TYPES
      ensures var n, saved := |OfType(Delivered(requests, applied), t)|, SavedOfType(After(c, INITIAL, steps), t);
        n <= |saved| && d.Field(t) == if n == 0 then None else Some(saved[n - 1].payload)
    {
      var n := DashboardShowsNewest(c, steps, t, norm);
    }
  }
}
