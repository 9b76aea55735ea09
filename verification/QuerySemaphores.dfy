/** The semaphores as the server holds them: a channel for all queries and a map of channels, one
    per namespace. Each call here runs to its end before the next. */
module QuerySemaphores {

  /** A buffered channel used as a semaphore: how many slots are taken. */
  class Chan {
    const cap: nat
    var len: nat

    constructor (cap: nat)
      ensures this.cap == cap && len == 0
    {
      this.cap, len := cap, 0;
    }

    method TrySend() returns (ok: bool)
      modifies this`len
      ensures ok == (old(len) < cap) && len == old(len) + if ok then 1 else 0
    {
      ok := len < cap;
      if ok { len := len + 1; }
    }

    method TryReceive()
      modifies this`len
      ensures len == if old(len) > 0 then old(len) - 1 else 0
    {
      if len > 0 { len := len - 1; }
    }
  }

  class Server {
    const global: Chan
    const perNamespace: int
    const maxEntries: nat
    var sems: map<string, Chan>
    ghost var held: multiset<string>  // the namespace of every slot that is out; "" for none

    constructor (globalCap: nat, perNamespace: int, maxEntries: nat)
      ensures Valid() && held == multiset{} && sems == map[] && fresh(global)
      ensures global.cap == globalCap && this.perNamespace == perNamespace && this.maxEntries == maxEntries
    {
      global := new Chan(globalCap);
      this.perNamespace, this.maxEntries := perNamespace, maxEntries;
      sems, held := map[], multiset{};
    }

    function Cap(): nat { if perNamespace <= 0 then 1 else perNamespace }

    /** Entries are separate channels, each as full as the slots of its namespace that are out. */
    ghost predicate SemsValid()
      reads this, sems.Values
    {
      && |sems| <= maxEntries && "" !in sems && global !in sems.Values
      && (forall a, b :: a in sems && b in sems && a != b ==> sems[a] != sems[b])
      && (forall a :: a in sems ==> sems[a].cap == Cap() && sems[a].len == held[a] <= Cap())
      && (forall a :: a in held && a != "" ==> a in sems)
    }

    ghost predicate Valid()
      reads this, global, sems.Values
    {
      SemsValid() && global.len == |held| <= global.cap
    }

    /** A slot of the namespace can be had: its semaphore is not full, or it can get one. */
    ghost predicate HasRoom(ns: string)
      reads this
    {
      if ns in sems then held[ns] < Cap()
      else |sems| < maxEntries || exists a :: a in sems && held[a] == 0
    }

    method Remove(ns: string)
      requires SemsValid() && ns in sems && held[ns] == 0
      modifies this`sems
      ensures SemsValid() && sems == old(sems) - {ns} && |sems| == |old(sems)| - 1
    {
      assert (sems - {ns}).Keys == sems.Keys - {ns};
      sems := sems - {ns};
    }

    /** Removes an idle entry when the map is full. */
    method Evict()
      requires SemsValid()
      modifies this`sems
      ensures SemsValid() && (forall a :: a in sems ==> a in old(sems) && sems[a] == old(sems)[a])
      ensures forall a :: a in old(sems) && a !in sems ==> held[a] == 0
      ensures |old(sems)| < maxEntries ==> sems == old(sems)
      ensures |sems| < maxEntries <==> |old(sems)| < maxEntries || exists a :: a in old(sems) && held[a] == 0
    {
      if |sems| < maxEntries { return; }
      var rest := sems.Keys;
      while rest != {}
        invariant sems == old(sems) && SemsValid()
        invariant rest <= sems.Keys && forall a :: a in sems && a !in rest ==> held[a] != 0
        decreases |rest|
      {
        var k :| k in rest;
        rest := rest - {k};
        if sems[k].len == 0 {
          Remove(k);
          if |sems| < maxEntries { break; }
        }
      }
    }

    /** A new, empty, semaphore for the namespace. */
    method Make(ns: string) returns (sem: Chan)
      requires SemsValid() && ns != "" && ns !in sems && |sems| < maxEntries
      modifies this`sems
      ensures SemsValid() && fresh(sem) && sems == old(sems)[ns := sem] && sem.len == 0
    {
      sem := new Chan(Cap());
      assert sems[ns := sem].Keys == sems.Keys + {ns};
      sems := sems[ns := sem];
    }

    /** The semaphore of the namespace, made if need be. */
    method Find(ns: string) returns (sem: Chan?)
      requires SemsValid() && ns != ""
      modifies this`sems
      ensures SemsValid()
      ensures (sem != null) == old(ns in sems || |sems| < maxEntries || exists a :: a in sems && held[a] == 0)
      ensures sem != null ==> ns in sems && sems[ns] == sem && (sem in old(sems.Values) || fresh(sem))
      ensures ns in old(sems) ==> sems == old(sems)
      ensures forall a :: a in sems && a != ns ==> a in old(sems) && sems[a] == old(sems)[a]
      ensures forall a :: a in old(sems) && held[a] > 0 ==> a in sems && sems[a] == old(sems)[a]
    {
      if ns in sems { return sems[ns]; }
      Evict();
      if |sems| >= maxEntries { return null; }
      sem := Make(ns);
    }

    /** One slot more of a semaphore in the map, unless it is full. */
    method Take(ns: string, sem: Chan) returns (ok: bool)
      requires SemsValid() && ns in sems && sems[ns] == sem
      modifies sem`len, this`held
      ensures SemsValid() && ok == (old(held)[ns] < Cap())
      ensures held == old(held) + if ok then multiset{ns} else multiset{}
    {
      ok := sem.TrySend();
      if ok { held := held + multiset{ns}; }
    }

    method Give(ns: string, sem: Chan)
      requires SemsValid() && ns in sems && sems[ns] == sem && ns in held
      modifies sem`len, this`held
      ensures SemsValid() && held == old(held) - multiset{ns}
    {
      sem.TryReceive();
      held := held - multiset{ns};
    }

    method AcquireNamed(ns: string) returns (sem: Chan?)
      requires SemsValid() && ns != ""
      modifies this, sems.Values
      ensures SemsValid() && global.len == old(global.len)
      ensures (sem != null) == old(HasRoom(ns))
      ensures held == old(held) + if sem != null then multiset{ns} else multiset{}
      ensures sem != null ==> ns in sems && sems[ns] == sem
      ensures forall a :: a in old(sems) && old(held)[a] > 0 ==> a in sems && sems[a] == old(sems)[a]
    {
      sem := Find(ns);
      if sem == null { return; }
      var ok := Take(ns, sem);
      if !ok { return null; }
    }

    /** A slot without a namespace is out. */
    ghost method Admit()
      requires SemsValid()
      modifies this`held
      ensures SemsValid() && held == old(held) + multiset{""}
    {
      held := held + multiset{""};
    }

    method AcquireQuerySlot(ns: string) returns (ok: bool)
      requires Valid()
      modifies this, global, sems.Values
      ensures Valid()
      ensures ok == old(|held| < global.cap && (ns == "" || HasRoom(ns)))
      ensures ok && ns != "" ==> held[ns] <= perNamespace || held[ns] == 1
      ensures !ok && old(|held|) < global.cap && ns in old(sems) ==>
                old(held)[ns] == if perNamespace > 0 then perNamespace else 1
      ensures held == old(held) + if ok then multiset{ns} else multiset{}
      ensures forall a :: a in old(sems) && old(held)[a] > 0 ==> a in sems && sems[a] == old(sems)[a]
    {
      ok := global.TrySend();
      if !ok { return; }
      if ns == "" {
        Admit();
        return;
      }
      var sem := AcquireNamed(ns);
      if sem == null {
        global.TryReceive();
        return false;
      }
    }

    /** Giving back a slot that is out: its own semaphore is found again and drained. */
    method ReleaseQuerySlot(ns: string)
      requires Valid() && ns in held
      modifies this, global, sems.Values
      ensures Valid() && held == old(held) - multiset{ns} && sems == old(sems)
    {
      if ns in sems {
        Give(ns, sems[ns]);
      } else {
        held := held - multiset{ns};
      }
      global.TryReceive();
    }
  }
}
