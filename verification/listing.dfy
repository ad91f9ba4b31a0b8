/** The JSON listing: configured groups of command names, permission
    filtered, each name projected to its schema (or a not-found placeholder),
    empty groups dropped, group keys title-cased. */
module Listing {
  import opened Wrappers
  import opened OrderedMaps
  import opened PhpValues
  import opened Schema
  import opened Bridge

  /** Listing hides a name when the permission configured under it is truthy
      and the gate denies it. */
  predicate Listed(permissions: map<string, Value>, gate: Value -> bool, id: string) {
    !(id in permissions && !IsFalsy(permissions[id]) && !gate(permissions[id]))
  }

  function View(cfg: Config, casing: Casing, id: string): CommandView {
    CommandToArray(casing, cfg.registry, cfg.envMode, id)
  }

  /** One group: hidden names are removed, every other name is replaced by
      its view, and the survivors are packed from index 0. */
  function ListGroup(cfg: Config, gate: Value -> bool, casing: Casing, ids: seq<string>): (views: seq<CommandView>)
    ensures |views| <= |ids|
  {
    if ids == [] then []
    else
      var rest := ListGroup(cfg, gate, casing, ids[1..]);
      if Listed(cfg.permissions, gate, ids[0]) then [View(cfg, casing, ids[0])] + rest else rest
  }

  /** What a filtered group holds: the view of every listed name and nothing
      else; it is empty exactly when no name in it is listed. */
  lemma {:induction false} ListGroupMembers(cfg: Config, gate: Value -> bool, casing: Casing, ids: seq<string>)
    ensures forall id :: id in ids && Listed(cfg.permissions, gate, id) ==>
              View(cfg, casing, id) in ListGroup(cfg, gate, casing, ids)
    ensures forall v :: v in ListGroup(cfg, gate, casing, ids) ==>
              exists id :: id in ids && Listed(cfg.permissions, gate, id) && v == View(cfg, casing, id)
    ensures ListGroup(cfg, gate, casing, ids) == [] <==> forall id :: id in ids ==> !Listed(cfg.permissions, gate, id)
  {
    if ids != [] {
      ListGroupMembers(cfg, gate, casing, ids[1..]);
      assert forall id :: id in ids <==> id == ids[0] || id in ids[1..];
    }
  }

  /** Filtering a group distributes over concatenation: the survivors keep
      their relative order. */
  lemma {:induction false} ListGroupAppend(cfg: Config, gate: Value -> bool, casing: Casing, a: seq<string>, b: seq<string>)
    ensures ListGroup(cfg, gate, casing, a + b) == ListGroup(cfg, gate, casing, a) + ListGroup(cfg, gate, casing, b)
  {
    if a == [] {
      assert a + b == b;
    } else {
      assert (a + b)[0] == a[0];
      assert (a + b)[1..] == a[1..] + b;
      ListGroupAppend(cfg, gate, casing, a[1..], b);
    }
  }

  /** The configured groups with every key title-cased, paired back up with
      their groups (`array_combine`): should two keys title-case alike, the
      later group is kept at the earlier one's place. */
  function RenameKeys<V>(title: string -> string, groups: Assoc<string, V>): (r: Assoc<string, V>)
    ensures Unique(r)
    ensures forall k :: k in Keys(r) <==> exists i :: 0 <= i < |groups| && title(groups[i].0) == k
    ensures forall k :: Get(r, k) == GetLast(TitledEntries(title, groups), k)
  {
    var titled := TitledEntries(title, groups);
    assert Unique<string, V>([]);
    PutAllGetAll(titled);
    TitledKeys(title, groups);
    PutAll([], titled)
  }

  /** The title-cased keys are the titles of the configured keys. */
  lemma TitledKeys<V>(title: string -> string, groups: Assoc<string, V>)
    ensures forall k :: k in Keys(TitledEntries(title, groups)) <==>
              exists i :: 0 <= i < |groups| && title(groups[i].0) == k
  {
    var titled := TitledEntries(title, groups);
    forall k | k in Keys(titled)
      ensures exists i :: 0 <= i < |groups| && title(groups[i].0) == k
    {
      var i := KeyIndex(titled, k);
    }
    forall i | 0 <= i < |groups| ensures title(groups[i].0) in Keys(titled) {
      assert Keys(titled)[i] == title(groups[i].0);
    }
  }

  function TitledEntries<V>(title: string -> string, groups: Assoc<string, V>): (titled: Assoc<string, V>)
    ensures |titled| == |groups|
    ensures forall i :: 0 <= i < |groups| ==> titled[i] == (title(groups[i].0), groups[i].1)
  {
    seq(|groups|, i requires 0 <= i < |groups| => (title(groups[i].0), groups[i].1))
  }

  /** When title-casing keeps the keys apart, renaming changes nothing but
      the keys: same groups, same order. */
  lemma RenameKeysInOrder<V>(title: string -> string, groups: Assoc<string, V>)
    requires Distinct(Keys(TitledEntries(title, groups)))
    ensures RenameKeys(title, groups) == TitledEntries(title, groups)
  {
    var titled := TitledEntries(title, groups);
    assert [] + titled == titled;
    PutAllFresh([], titled);
  }

  /** Every group is filtered; a group left empty is removed, the others keep
      their key and their place. */
  function ListGroups(cfg: Config, gate: Value -> bool, casing: Casing, groups: Assoc<string, seq<string>>)
    : (r: Assoc<string, seq<CommandView>>)
    ensures |r| <= |groups|
    ensures forall i :: 0 <= i < |r| ==> r[i].1 != []
    ensures forall k :: k in Keys(r) ==> k in Keys(groups)
  {
    if groups == [] then []
    else
      var views := ListGroup(cfg, gate, casing, groups[0].1);
      var rest := ListGroups(cfg, gate, casing, groups[1..]);
      assert Keys(groups) == [groups[0].0] + Keys(groups[1..]);
      if views == [] then rest
      else
        assert Keys([(groups[0].0, views)] + rest) == [groups[0].0] + Keys(rest);
        [(groups[0].0, views)] + rest
  }

  /** Looking a group up in the listing: it is there, filtered and
      projected, exactly when the configured group is there and keeps at
      least one command. Keys stay unique. */
  lemma {:induction false} ListGroupsGet(
    cfg: Config, gate: Value -> bool, casing: Casing, groups: Assoc<string, seq<string>>, k: string)
    requires Unique(groups)
    ensures Unique(ListGroups(cfg, gate, casing, groups))
    ensures Get(ListGroups(cfg, gate, casing, groups), k) ==
              match Get(groups, k)
              case Some(ids) =>
                if ListGroup(cfg, gate, casing, ids) == [] then None else Some(ListGroup(cfg, gate, casing, ids))
              case None => None
  {
    if groups != [] {
      var tail := groups[1..];
      assert groups == [groups[0]] + tail;
      UniqueTail(groups[0], tail);
      GetCons(groups[0], tail, k);
      ListGroupsGet(cfg, gate, casing, tail, k);
      var rest := ListGroups(cfg, gate, casing, tail);
      var views := ListGroup(cfg, gate, casing, groups[0].1);
      if views != [] {
        UniqueFront((groups[0].0, views), rest);
        GetCons((groups[0].0, views), rest, k);
      }
    }
  }

  /** Dropping groups distributes over concatenation: surviving groups keep
      their relative order. */
  lemma {:induction false} ListGroupsAppend(
    cfg: Config, gate: Value -> bool, casing: Casing, a: Assoc<string, seq<string>>, b: Assoc<string, seq<string>>)
    ensures ListGroups(cfg, gate, casing, a + b) == ListGroups(cfg, gate, casing, a) + ListGroups(cfg, gate, casing, b)
  {
    if a == [] {
      assert a + b == b;
    } else {
      assert (a + b)[0] == a[0];
      assert (a + b)[1..] == a[1..] + b;
      ListGroupsAppend(cfg, gate, casing, a[1..], b);
    }
  }

  /** `prepareToJson`: title-case the group keys, then filter and project
      every group and drop the empty ones. */
  function PrepareToJson(cfg: Config, gate: Value -> bool, casing: Casing, groups: Assoc<string, seq<string>>)
    : (r: Assoc<string, seq<CommandView>>)
    ensures Unique(r)
    ensures forall i :: 0 <= i < |r| ==> r[i].1 != []
    ensures forall k :: k in Keys(r) ==> exists i :: 0 <= i < |groups| && casing.title(groups[i].0) == k
  {
    var renamed := RenameKeys(casing.title, groups);
    ListGroupsGet(cfg, gate, casing, renamed, "");
    ListGroups(cfg, gate, casing, renamed)
  }

  /** With group keys that title-case apart, each configured group shows
      up under its title-cased key, filtered and projected, unless nothing
      in it survives. */
  lemma PrepareToJsonGet(
    cfg: Config, gate: Value -> bool, casing: Casing, groups: Assoc<string, seq<string>>, i: nat)
    requires Distinct(Keys(TitledEntries(casing.title, groups)))
    requires i < |groups|
    ensures var views := ListGroup(cfg, gate, casing, groups[i].1);
            Get(PrepareToJson(cfg, gate, casing, groups), casing.title(groups[i].0)) ==
            if views == [] then None else Some(views)
  {
    var titled := TitledEntries(casing.title, groups);
    RenameKeysInOrder(casing.title, groups);
    assert Keys(titled)[i] == titled[i].0;
    UniqueGet(titled, i);
    ListGroupsGet(cfg, gate, casing, titled, casing.title(groups[i].0));
  }

  /** Looking a key up in the listing, whatever the collisions: it holds
      the last configured group whose key title-cases to it, filtered and
      projected, unless nothing in that group survives. */
  lemma PrepareToJsonLookup(
    cfg: Config, gate: Value -> bool, casing: Casing, groups: Assoc<string, seq<string>>, k: string)
    ensures Get(PrepareToJson(cfg, gate, casing, groups), k) ==
              match GetLast(TitledEntries(casing.title, groups), k)
              case Some(ids) =>
                if ListGroup(cfg, gate, casing, ids) == [] then None else Some(ListGroup(cfg, gate, casing, ids))
              case None => None
  {
    ListGroupsGet(cfg, gate, casing, RenameKeys(casing.title, groups), k);
  }

  /** Listing and running disagree on a falsy permission: listing ignores
      it, running asks the gate anyway, so a denied falsy permission is
      listed yet refused with 403. */
  lemma FalsyPermissionListedButForbidden(
    cfg: Config, gate: Value -> bool, validate: Rules.RuleSet -> Option<Assoc<string, Value>>,
    runtime: (string, Marshal.Params) -> Outcome, id: string)
    requires id in cfg.registry && cfg.registry[id].name == id
    requires id in cfg.permissions && IsFalsy(cfg.permissions[id]) && !gate(cfg.permissions[id])
    ensures Listed(cfg.permissions, gate, id)
    ensures Run(cfg, gate, validate, runtime, id).response == Aborted(Forbidden)
  {
  }

  /** Otherwise they agree: for a registered command listed under its own
      name with no permission or a truthy one, it is listed exactly when
      running it is not refused with 403. */
  lemma ListedIffRunnable(
    cfg: Config, gate: Value -> bool, validate: Rules.RuleSet -> Option<Assoc<string, Value>>,
    runtime: (string, Marshal.Params) -> Outcome, id: string)
    requires id in cfg.registry && cfg.registry[id].name == id
    requires id in cfg.permissions ==> !IsFalsy(cfg.permissions[id])
    ensures Listed(cfg.permissions, gate, id) <==>
            Run(cfg, gate, validate, runtime, id).response != Aborted(Forbidden)
  {
  }
}
