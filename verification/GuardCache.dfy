/** An nft table with the plugin's cache of what it loaded: a ruleset is loaded again only if it is
    new or the live table no longer lists as it did right after the load. */
module GuardCache {
  import opened Wrappers
  import opened Mesh

  /** A table can be told from its listing, and no listing is empty. */
  ghost predicate Faithful<T(!new)>(listing: T -> string) {
    && (forall a, b :: listing(a) == listing(b) ==> a == b)
    && (forall a :: listing(a) != "")
  }

  /** `produce` is the table a ruleset makes when it is loaded, `listing` the text a table lists as. */
  class TableCache<R(==), T(!new)> {
    const produce: R -> T
    const listing: T -> string
    /** Every nft command works. */
    const works: bool
    /** The kernel's table. */
    var table: Option<T>
    /** The ruleset loaded last, unless forgotten, and the listing taken right after. */
    var rules: Option<R>
    var live: string
    /** How often a ruleset was handed to nft. */
    ghost var loads: nat

    ghost predicate Valid()
      reads this
    {
      && Faithful(listing)
      && (rules.Some? ==> live == "" || live == listing(produce(rules.value)))
    }

    constructor (produce: R -> T, listing: T -> string, works: bool, table: Option<T>)
      requires Faithful(listing)
      ensures Valid() && this.table == table && rules.None? && loads == 0
      ensures this.produce == produce && this.listing == listing && this.works == works
    {
      this.produce, this.listing, this.works, this.table := produce, listing, works, table;
      rules, live, loads := None, "", 0;
    }

    /** Somebody else flushes, edits or replaces the table. */
    method Outside(other: Option<T>)
      requires Valid()
      modifies this`table
      ensures Valid() && table == other
    {
      table := other;
    }

    /** A failed listing leaves no text. */
    method List() returns (text: string, ok: bool)
      ensures ok ==> table.Some? && text == listing(table.value)
      ensures !ok ==> text == ""
      ensures works && table.Some? ==> ok
    {
      text := "";
      ok := *;
      ok := (ok || works) && table.Some?;
      if ok {
        text := listing(table.value);
      }
    }

    /** Hands a ruleset to nft; it replaces the whole table or nothing. */
    method Load(ruleset: R) returns (ok: bool)
      modifies this`table, this`loads
      ensures table == if ok then Some(produce(ruleset)) else old(table)
      ensures loads == old(loads) + 1 && (works ==> ok)
    {
      ok := *;
      ok := ok || works;
      if ok {
        table := Some(produce(ruleset));
      }
      loads := loads + 1;
    }

    /** Success means that the live table is the one the ruleset makes, as if it had been loaded
        unconditionally - whatever others did to the table since the last call. */
    method InstallTable(ruleset: R) returns (ok: bool)
      requires Valid()
      modifies this
      ensures Valid()
      ensures ok ==> table == Some(produce(ruleset)) && rules == Some(ruleset)
      ensures !ok ==> table == old(table) && rules.None?
      // Only a table that was right all along is left alone.
      ensures loads == old(loads) ==> ok && old(table) == Some(produce(ruleset)) && old(rules) == Some(ruleset)
      ensures old(loads) <= loads <= old(loads) + 1
      // And with every command working it is: after a success the cache knows the table, and while it
      // does, nothing is loaded.
      ensures works ==> ok && live == listing(produce(ruleset))
      ensures works && old(table) == Some(produce(ruleset)) && old(rules) == Some(ruleset) && old(live) != "" ==>
                loads == old(loads)
    {
      if rules == Some(ruleset) {
        var cur, listed := List();
        if listed && cur == live {
          return true;
        }
      }
      ok := Load(ruleset);
      if !ok {
        rules := None;
        return;
      }
      rules := Some(ruleset);
      var listed: bool;
      live, listed := List();
    }

    /** Deletes the table and forgets the cache, even if the deletion fails. */
    method Drop() returns (ok: bool)
      requires Valid()
      modifies this
      ensures Valid() && rules.None? && live == "" && loads == old(loads)
      ensures table == if ok then None else old(table)
      ensures works ==> ok
    {
      ok := *;
      ok := ok || works;
      if ok {
        table := None;
      }
      rules, live := None, "";
    }
  }

  // ---- The leaf's guard on its uplink ----

  /** The guard for either mode, with or without the egress hook that some kernels lack. */
  datatype LeafRules = MACsecRules(wanif: string, egress: bool) | WGRules(wanif: string, port: int, egress: bool)

  function RenderLeafGuard(wanif: string, egress: bool): Option<LeafRules> {
    if ValidIface(wanif) then Some(MACsecRules(wanif, egress)) else None
  }

  function RenderLeafGuardWG(wanif: string, port: int, egress: bool): Option<LeafRules> {
    if ValidIface(wanif) && ValidWGPort(port) then Some(WGRules(wanif, port, egress)) else None
  }

  /** The ruleset asked for: MACsec's without a port, WireGuard's with one. */
  function Render(wanif: string, port: Option<int>, egress: bool): Option<LeafRules> {
    if port.Some? then RenderLeafGuardWG(wanif, port.value, egress) else RenderLeafGuard(wanif, egress)
  }

  class LeafGuard<T(!new)> {
    const cache: TableCache<LeafRules, T>
    /** The egress hook once failed to load; the manager does not try it again. */
    var noEgress: bool

    ghost predicate Valid()
      reads this, cache
    {
      cache.Valid()
    }

    constructor (cache: TableCache<LeafRules, T>)
      requires cache.Valid()
      ensures Valid() && this.cache == cache && !noEgress
    {
      this.cache, noEgress := cache, false;
    }

    /** Guards the uplink in the given mode. Success means exactly that mode's guard is live - never
        one left from the other mode - with egress filtering unless the egress hook has failed, in
        this call or before. */
    method Apply(wanif: string, port: Option<int>) returns (ok: bool)
      requires Valid()
      modifies this, cache
      ensures Valid()
      ensures ok ==> ValidIface(wanif) && (port.Some? ==> ValidWGPort(port.value))
                     && cache.table == Some(cache.produce(Render(wanif, port, !noEgress).value))
      ensures old(noEgress) ==> noEgress
      // The fallback is taken only after a load with the egress hook failed.
      ensures noEgress && !old(noEgress) ==> cache.loads > old(cache.loads)
      ensures !ok ==> cache.table == old(cache.table)
      ensures ok ==> cache.table == Some(cache.produce(if port.Some? then WGRules(wanif, port.value, !noEgress)
                                                       else MACsecRules(wanif, !noEgress)))
      // It fails only for what cannot be rendered, or when nft refused it without the egress hook too.
      ensures !ok && ValidIface(wanif) && (port.Some? ==> ValidWGPort(port.value)) ==>
                noEgress && cache.loads == old(cache.loads) + if old(noEgress) then 1 else 2
      ensures cache.works ==> noEgress == old(noEgress)
                              && (ok <==> ValidIface(wanif) && (port.Some? ==> ValidWGPort(port.value)))
    {
      if !noEgress {
        var ruleset := Render(wanif, port, true);
        if !ruleset.Some? {
          return false;
        }
        ok := cache.InstallTable(ruleset.value);
        if ok {
          return;
        }
        noEgress := true;
      }
      var ruleset := Render(wanif, port, false);
      if !ruleset.Some? {
        return false;
      }
      ok := cache.InstallTable(ruleset.value);
    }

    /** The guard's part of a teardown: after it, no cached state can keep a later guard from loading. */
    method Teardown()
      requires Valid()
      modifies cache
      ensures Valid() && cache.rules.None? && (cache.table.None? || cache.table == old(cache.table))
      ensures cache.works ==> cache.table.None?
    {
      var _ := cache.Drop();
    }
  }
}
