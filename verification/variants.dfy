/**
 How the two backend variants relate. Forgetting the mode of every record
 turns the full variant's registry into the earlier one's, and the two
 variants then agree on every update the full variant accepts and on every
 listing. The earlier variant accepts strictly more updates: those without
 a mode.
 */
module Variants {
  import opened Common
  import App
  import AppTracker

  /** The earlier variant's view of a full-variant record. */
  function ProjectRecord(r: App.Record): (t: AppTracker.Record)
    ensures t.lat == r.lat && t.lon == r.lon && t.lastUpdate == r.lastUpdate
  {
    AppTracker.Record(r.lat, r.lon, r.lastUpdate)
  }

  function Project(store: App.Store): (t: AppTracker.Store)
    ensures t.Keys == store.Keys
    ensures forall id :: id in store ==> t[id] == ProjectRecord(store[id])
  {
    map id | id in store :: ProjectRecord(store[id])
  }

  function ProjectArgs(a: App.UpdateArgs): AppTracker.UpdateArgs
  {
    AppTracker.UpdateArgs(a.id, a.lat, a.lon)
  }

  /** Every update the full variant accepts, the earlier variant accepts too,
      and the two registries stay related by `Project`. */
  lemma UpdateAgrees(store: App.Store, a: App.UpdateArgs, now: int, parse: Parser)
    requires App.Accepted(a, parse)
    ensures AppTracker.Accepted(ProjectArgs(a), parse)
    ensures Project(App.UpdateLocationHandler(store, a, now, parse).store)
         == AppTracker.UpdateLocationHandler(Project(store), ProjectArgs(a), now, parse).store
  {
    var lhs := Project(App.UpdateLocationHandler(store, a, now, parse).store);
    var rhs := AppTracker.UpdateLocationHandler(Project(store), ProjectArgs(a), now, parse).store;
    assert lhs.Keys == rhs.Keys;
    forall id | id in lhs
      ensures lhs[id] == rhs[id]
    {
    }
  }

  /** An update that lacks only the mode is refused with 400 by the full
      variant and accepted by the earlier one. */
  lemma MissingModeOnlyRefusedByFull(store: App.Store, a: App.UpdateArgs, now: int, parse: Parser)
    requires Truthy(a.id) && Truthy(a.lat) && Truthy(a.lon) && !Truthy(a.mode)
    requires parse(a.lat.value).Some? && parse(a.lon.value).Some?
    ensures App.StatusCode(App.UpdateLocationHandler(store, a, now, parse).reply) == 400
    ensures AppTracker.UpdateLocationHandler(Project(store), ProjectArgs(a), now, parse).reply
         == AppTracker.Message(200, "Location updated for " + a.id.value)
  {
  }

  /** Both variants list the same coordinates and estimates for related
      registries; the full variant only adds the mode. */
  lemma ListingsAgree(store: App.Store, now: int)
    ensures var full := App.ListVehicles(store, now);
            var early := AppTracker.ListVehicles(Project(store), now);
            && full.Keys == early.Keys
            && forall id :: id in full ==>
                 early[id] == AppTracker.Listing(full[id].lat, full[id].lon, full[id].etaMin)
  {
  }
}
