// Versions stored in object metadata as decimal text, and the metadata filter.

module Metadata {
  import opened Common
  import opened Decimal
  import Versions

  const SYNC_VERSION := "edgion.io/sync-version"

  datatype Meta = Meta(
    name: Option<string>,
    namespace: Option<string>,
    resourceVersion: Option<string>,
    annotations: Option<map<string, string>>,
    managedFields: Option<seq<string>>)

  datatype FilterConfig = FilterConfig(blockedAnnotations: seq<string>, removeManagedFields: bool)

  /** Missing or unreadable text counts as version 0. */
  function NumberOrZero(text: Option<string>): nat {
    match text
    case None => 0
    case Some(s) => (match ParseU64(s) case Some(n) => n case None => 0)
  }

  function Annotation(m: Meta, key: string): Option<string> {
    if m.annotations.Some? && key in m.annotations.value then Some(m.annotations.value[key]) else None
  }

  function ExtractVersion(m: Meta): nat { NumberOrZero(m.resourceVersion) }

  function ExtractSyncVersion(m: Meta): nat { NumberOrZero(Annotation(m, SYNC_VERSION)) }

  function KeyName(m: Meta): string {
    var name := if m.name.Some? then m.name.value else "";
    if m.namespace.Some? then m.namespace.value + "/" + name else name
  }

  // ---------- What the operations leave behind ----------

  function Versioned(m: Meta, v: nat): Meta { m.(resourceVersion := Some(Print(v))) }

  function Synced(m: Meta, sv: nat): Meta {
    var annotations := if m.annotations.Some? then m.annotations.value else map[];
    m.(annotations := Some(annotations[SYNC_VERSION := Print(sv)]))
  }

  /** Without the blocked annotations; an emptied annotation map disappears, as does an empty one. */
  function Cleaned(m: Meta, config: FilterConfig): Meta {
    var kept := if m.annotations.None? then m.annotations
                else Unblocked(m.annotations.value, config.blockedAnnotations);
    m.(annotations := kept, managedFields := if config.removeManagedFields then None else m.managedFields)
  }

  function Unblocked(annotations: map<string, string>, blocked: seq<string>): Option<map<string, string>> {
    var kept := map k | k in annotations && k !in blocked :: annotations[k];
    if kept == map[] then None else Some(kept)
  }

  class Resource {
    var meta: Meta

    constructor (m: Meta)
      ensures meta == m
    {
      meta := m;
    }

    /** `version` is what the generator returned. */
    method UpdateResourceVersion(version: nat)
      modifies this
      ensures meta == Versioned(old(meta), version)
    {
      meta := meta.(resourceVersion := Some(Print(version)));
    }

    method SetSyncVersion(sv: nat)
      modifies this
      ensures meta == Synced(old(meta), sv)
    {
      if meta.annotations.None? {
        meta := meta.(annotations := Some(map[]));
      }
      meta := meta.(annotations := Some(meta.annotations.value[SYNC_VERSION := Print(sv)]));
    }

    method CleanMetadata(config: FilterConfig)
      modifies this
      ensures meta == Cleaned(old(meta), config)
    {
      if meta.annotations.Some? {
        var annotations := meta.annotations.value;
        for i := 0 to |config.blockedAnnotations|
          invariant meta == old(meta)
          invariant forall k :: k in annotations <==> k in meta.annotations.value && k !in config.blockedAnnotations[..i]
          invariant forall k :: k in annotations ==> annotations[k] == meta.annotations.value[k]
        {
          annotations := annotations - {config.blockedAnnotations[i]};
        }
        assert annotations == map k | k in meta.annotations.value && k !in config.blockedAnnotations :: meta.annotations.value[k];
        meta := meta.(annotations := if |annotations| == 0 then None else Some(annotations));
      }
      if config.removeManagedFields {
        meta := meta.(managedFields := None);
      }
    }
  }

  // ---------- Round trips ----------

  lemma VersionRoundTrip(m: Meta, v: nat)
    requires v <= U64_MAX
    ensures ExtractVersion(Versioned(m, v)) == v
  {
    ParseOfPrint(v);
  }

  /** Reading back a sync version; everything else stays as it was. */
  lemma SyncRoundTrip(m: Meta, sv: nat)
    requires sv <= U64_MAX
    ensures ExtractSyncVersion(Synced(m, sv)) == sv
    ensures ExtractVersion(Synced(m, sv)) == ExtractVersion(m) && KeyName(Synced(m, sv)) == KeyName(m)
    ensures forall k :: k != SYNC_VERSION ==> Annotation(Synced(m, sv), k) == Annotation(m, k)
  {
    ParseOfPrint(sv);
  }

  /** Setting the sync version commutes with filtering exactly when its annotation is not blocked. */
  lemma SyncCommutesIff(m: Meta, sv: nat, config: FilterConfig)
    ensures Cleaned(Synced(m, sv), config) == Synced(Cleaned(m, config), sv) <==> SYNC_VERSION !in config.blockedAnnotations
  {
    var blocked := config.blockedAnnotations;
    var before := if m.annotations.Some? then m.annotations.value else map[];
    var after := before[SYNC_VERSION := Print(sv)];
    var kept := map k | k in before && k !in blocked :: before[k];
    if SYNC_VERSION in blocked {
      assert SYNC_VERSION in Synced(Cleaned(m, config), sv).annotations.value;
      assert Annotation(Cleaned(Synced(m, sv), config), SYNC_VERSION) == None;
    } else {
      assert (map k | k in after && k !in blocked :: after[k]) == kept[SYNC_VERSION := Print(sv)];
      assert SYNC_VERSION in kept[SYNC_VERSION := Print(sv)];
      assert m.annotations.None? ==> kept == map[];
    }
  }

  /** Filtering hides blocked annotations, keeps the others, and settles after one pass. */
  lemma CleanKeepsTheRest(m: Meta, config: FilterConfig)
    ensures forall k :: Annotation(Cleaned(m, config), k) == if k in config.blockedAnnotations then None else Annotation(m, k)
    ensures Cleaned(Cleaned(m, config), config) == Cleaned(m, config)
    ensures ExtractVersion(Cleaned(m, config)) == ExtractVersion(m) && KeyName(Cleaned(m, config)) == KeyName(m)
  {
    if m.annotations.Some? {
      var kept := map k | k in m.annotations.value && k !in config.blockedAnnotations :: m.annotations.value[k];
      assert (map k | k in kept && k !in config.blockedAnnotations :: kept[k]) == kept;
      assert forall k :: k in kept <==> k in m.annotations.value && k !in config.blockedAnnotations;
    }
  }

  /** Versions written by two calls, one invoked after the other had returned, read back in order. */
  lemma WrittenVersionsGrow(threads: nat, actions: seq<Versions.Action>, i: nat, j: nat, k: nat, a: Meta, b: Meta)
    requires var s := Versions.Run(threads, actions);
      s.clockMax + (|s.history| - 1) <= U64_MAX && i < j < k < |s.log| &&
      s.log[i].Return? && s.log[j].Invoke? && s.log[k].Return? && s.log[j].thread == s.log[k].thread
    ensures var s := Versions.Run(threads, actions);
      s.log[i].index < |s.history| && s.log[k].index < |s.history| &&
      ExtractVersion(Versioned(a, Versions.Version(s, i))) < ExtractVersion(Versioned(b, Versions.Version(s, k)))
  {
    Versions.UniqueAndOrdered(threads, actions);
    Versions.InvRun(threads, actions);
    var s := Versions.Run(threads, actions);
    VersionRoundTrip(a, Versions.Version(s, i));
    VersionRoundTrip(b, Versions.Version(s, k));
  }
}
