/** OriginalOwnerTracker: the changes that record who originally owned a territory or a unit,
    and the query for the territories a player originally owned. */
module OriginalOwners {
  import opened Results
  import opened GameValues
  import opened PropertyChanges

  /** Constants.ORIGINAL_OWNER, the name of the property on units and territory attachments. */
  const ORIGINAL_OWNER := "originalOwner"

  /** A territory's attachment, as far as the original owner goes. */
  datatype TerritoryAttachment = TerritoryAttachment(id: AttachmentId, originalOwner: Option<PlayerId>)

  /** A territory of the map, with its territory attachment if it has one. */
  datatype Territory = Territory(name: string, attachment: Option<TerritoryAttachment>)

  /** addOriginalOwnerChange(Territory, PlayerID): a change of the original owner on the
      territory's attachment; a territory without one has no attachment to change. */
  function TerritoryOriginalOwnerChange(t: Territory, player: PlayerId): (r: Result<Change>)
    ensures r.Ok? <==> t.attachment.Some?
    ensures r.Ok? ==> r.value.AttachmentProperty? && r.value.attachment == t.attachment.value.id
                      && r.value.property == ORIGINAL_OWNER && r.value.newValue == Owner(player)
    ensures r.Err? ==> r.error == NullDereference
  {
    match t.attachment
    case None => Err(NullDereference)
    case Some(a) => Ok(AttachmentProperty(a.id, ORIGINAL_OWNER, Owner(player)))
  }

  /** addOriginalOwnerChange(Unit, PlayerID): a property change of the unit's original owner to
      the player, capturing the unit's current original owner as the value to restore. */
  function UnitOriginalOwnerChange(properties: Properties, unit: UnitId, player: PlayerId): (r: Result<ObjectPropertyChange>)
    ensures r.Ok? <==> (unit, ORIGINAL_OWNER) in properties
    ensures r.Ok? ==> r.value == ObjectPropertyChange(unit, ORIGINAL_OWNER, Owner(player), properties[(unit, ORIGINAL_OWNER)])
    ensures r.Err? ==> r.error == NoSuchProperty(ORIGINAL_OWNER)
  {
    Create(properties, unit, ORIGINAL_OWNER, Owner(player))
  }

  /** Performing a unit's original-owner change sets that unit's original owner to the player
      and touches no other property; its inverse puts the old owner back. */
  lemma UnitOriginalOwnerChangeSetsOwner(properties: Properties, accepts: Validator, unit: UnitId, player: PlayerId)
    requires (unit, ORIGINAL_OWNER) in properties
    requires accepts((unit, ORIGINAL_OWNER), Owner(player))
    requires accepts((unit, ORIGINAL_OWNER), properties[(unit, ORIGINAL_OWNER)])
    ensures var c := UnitOriginalOwnerChange(properties, unit, player).value;
            var after := Apply(properties, accepts, c);
            after.Ok? && after.value[(unit, ORIGINAL_OWNER)] == Owner(player)
            && (forall k :: k in properties && k != (unit, ORIGINAL_OWNER) ==> after.value[k] == properties[k])
            && Apply(after.value, accepts, Invert(c)) == Ok(properties)
  {
    PerformThenInvertRestores(properties, accepts, unit, ORIGINAL_OWNER, Owner(player));
  }

  /** addOriginalOwnerChange(Collection<Unit>, PlayerID): one unit change per unit, in the
      order of the units, gathered into one composite; every change is made against the same
      property values. A unit without the property is an error. */
  method UnitsOriginalOwnerChange(properties: Properties, units: seq<UnitId>, player: PlayerId)
    returns (r: Result<Change>)
    ensures r.Ok? <==> forall i :: 0 <= i < |units| ==> (units[i], ORIGINAL_OWNER) in properties
    ensures r.Ok? ==> r.value.Composite? && |r.value.changes| == |units|
                      && forall i :: 0 <= i < |units| ==>
                           r.value.changes[i] == UnitProperty(UnitOriginalOwnerChange(properties, units[i], player).value)
    ensures r.Err? ==> r.error == NoSuchProperty(ORIGINAL_OWNER)
  {
    var changes: seq<Change> := [];
    var i := 0;
    while i < |units|
      invariant 0 <= i <= |units| && |changes| == i
      invariant forall j :: 0 <= j < i ==> (units[j], ORIGINAL_OWNER) in properties
      invariant forall j :: 0 <= j < i ==>
                  changes[j] == UnitProperty(UnitOriginalOwnerChange(properties, units[j], player).value)
    {
      var c := UnitOriginalOwnerChange(properties, units[i], player);
      if c.Err? {
        return Err(c.error);
      }
      changes := changes + [UnitProperty(c.value)];
      i := i + 1;
    }
    r := Ok(Composite(changes));
  }

  /** getOriginalOwner(Territory): null without a territory attachment, otherwise the
      attachment's original owner, which may itself be null. */
  function TerritoryOriginalOwner(t: Territory): (r: Option<PlayerId>)
    ensures t.attachment.None? ==> r.None?
    ensures t.attachment.Some? ==> r == t.attachment.value.originalOwner
  {
    match t.attachment
    case None => None
    case Some(a) => a.originalOwner
  }

  /** The original owner getOriginallyOwned compares: a missing one counts as the null player. */
  function OwnerOrNull(t: Territory): PlayerId {
    TerritoryOriginalOwner(t).GetOr(NULL_PLAYERID)
  }

  /** The territories of the map, in map order, whose original owner is the player. */
  function OriginallyOwned(territories: seq<Territory>, player: PlayerId): seq<Territory>
    decreases |territories|
  {
    if |territories| == 0 then []
    else
      var last := territories[|territories| - 1];
      OriginallyOwned(territories[..|territories| - 1], player) + (if OwnerOrNull(last) == player then [last] else [])
  }

  /** getOriginallyOwned: the map's territories in order, kept when their original owner is
      the player. */
  method GetOriginallyOwned(territories: seq<Territory>, player: PlayerId) returns (owned: seq<Territory>)
    ensures owned == OriginallyOwned(territories, player)
  {
    owned := [];
    var i := 0;
    while i < |territories|
      invariant 0 <= i <= |territories|
      invariant owned == OriginallyOwned(territories[..i], player)
    {
      var t := territories[i];
      var originalOwner := TerritoryOriginalOwner(t);
      if originalOwner.None? {
        originalOwner := Some(NULL_PLAYERID);
      }
      assert territories[..i + 1][..i] == territories[..i];
      if originalOwner.value == player {
        owned := owned + [t];
      }
      i := i + 1;
    }
    assert territories[..|territories|] == territories;
  }

  /** A territory is listed exactly when it is on the map and originally owned by the player. */
  lemma {:induction false} OriginallyOwnedMembers(territories: seq<Territory>, player: PlayerId, t: Territory)
    ensures t in OriginallyOwned(territories, player) <==> t in territories && OwnerOrNull(t) == player
    decreases |territories|
  {
    if |territories| > 0 {
      var init := territories[..|territories| - 1];
      OriginallyOwnedMembers(init, player, t);
      assert territories == init + [territories[|territories| - 1]];
    }
  }

  /** The query keeps map order: the territories of two stretches of the map come out as the
      first stretch's followed by the second's. */
  lemma {:induction false} OriginallyOwnedConcat(a: seq<Territory>, b: seq<Territory>, player: PlayerId)
    ensures OriginallyOwned(a + b, player) == OriginallyOwned(a, player) + OriginallyOwned(b, player)
    decreases |b|
  {
    if |b| > 0 {
      var bInit := b[..|b| - 1];
      assert (a + b)[..|a + b| - 1] == a + bInit;
      OriginallyOwnedConcat(a, bInit, player);
    } else {
      assert a + b == a;
    }
  }

  /** The query never lists more territories than the map has. */
  lemma {:induction false} OriginallyOwnedShorter(territories: seq<Territory>, player: PlayerId)
    ensures |OriginallyOwned(territories, player)| <= |territories|
    decreases |territories|
  {
    if |territories| > 0 {
      OriginallyOwnedShorter(territories[..|territories| - 1], player);
    }
  }

  /** Asking for the null player lists exactly the territories with no recorded original
      owner, besides any recorded as owned by the null player itself. */
  lemma NullPlayerOwnsUnrecorded(territories: seq<Territory>, t: Territory)
    requires t in territories
    ensures TerritoryOriginalOwner(t).None? ==> t in OriginallyOwned(territories, NULL_PLAYERID)
    ensures t in OriginallyOwned(territories, NULL_PLAYERID) <==>
              TerritoryOriginalOwner(t).None? || TerritoryOriginalOwner(t) == Some(NULL_PLAYERID)
  {
    OriginallyOwnedMembers(territories, NULL_PLAYERID, t);
  }
}
