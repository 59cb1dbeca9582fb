/** Rack unit arithmetic of the DCIM domain package. */
module RackPlacement {
  import opened InventoryModel

  datatype Verdict =
    | Fits
    | OtherRack
    | StartOutOfBounds
    | HeightTooSmall
    | BeyondCapacity
    | OverlapsDevice

  predicate ValidRackUnit(totalUnits: int, unit: int) {
    totalUnits > 0 && 1 <= unit <= totalUnits
  }

  function ValidateRackPosition(rack: Rack, position: RackPosition): Verdict {
    if position.rackId != rack.id then OtherRack
    else if !ValidRackUnit(rack.totalUnits, position.startingUnit) then StartOutOfBounds
    else if position.heightUnits < 1 then HeightTooSmall
    else if !ValidRackUnit(rack.totalUnits, position.startingUnit + position.heightUnits - 1) then BeyondCapacity
    else Fits
  }

  predicate Clashes(candidate: RackPosition, position: RackPosition) {
    && position.rackId == candidate.rackId
    && position.face == candidate.face
    && candidate.startingUnit <= position.startingUnit + position.heightUnits - 1
    && position.startingUnit <= candidate.startingUnit + candidate.heightUnits - 1
  }

  function CanOccupyRackPosition(rack: Rack, candidate: RackPosition, occupied: seq<RackPosition>): Verdict {
    var verdict := ValidateRackPosition(rack, candidate);
    if verdict != Fits then verdict
    else if exists position :: position in occupied && Clashes(candidate, position) then OverlapsDevice
    else Fits
  }

  /** The unit of a rack face that a position takes up. */
  predicate Occupies(position: RackPosition, rackId: string, face: string, unit: int) {
    && position.rackId == rackId && position.face == face
    && position.startingUnit <= unit < position.startingUnit + position.heightUnits
  }

  ghost predicate ShareUnit(p: RackPosition, q: RackPosition) {
    exists unit :: Occupies(p, p.rackId, p.face, unit) && Occupies(q, p.rackId, p.face, unit)
  }

  /** The interval test finds exactly the positions that share a unit, for positions at least one unit high. */
  lemma ClashIsSharedUnit(p: RackPosition, q: RackPosition)
    ensures ShareUnit(p, q) ==> Clashes(p, q)
    ensures p.heightUnits >= 1 && q.heightUnits >= 1 ==> (Clashes(p, q) <==> ShareUnit(p, q))
  {
    if Clashes(p, q) && p.heightUnits >= 1 && q.heightUnits >= 1 {
      var unit := if p.startingUnit <= q.startingUnit then q.startingUnit else p.startingUnit;
      assert Occupies(p, p.rackId, p.face, unit);
    }
  }

  /** A position lies inside its rack. */
  predicate InBounds(rack: Rack, position: RackPosition) {
    position.startingUnit >= 1 && position.startingUnit + position.heightUnits - 1 <= rack.totalUnits
  }

  lemma FitsIsInBounds(rack: Rack, candidate: RackPosition, occupied: seq<RackPosition>)
    requires CanOccupyRackPosition(rack, candidate, occupied) == Fits
    ensures candidate.heightUnits >= 1 && InBounds(rack, candidate)
    ensures forall position :: position in occupied ==> !ShareUnit(candidate, position)
  {
    forall position | position in occupied ensures !ShareUnit(candidate, position) {
      ClashIsSharedUnit(candidate, position);
    }
  }

  /** No two devices share a unit on one face. */
  ghost predicate NoSharedUnits(devices: seq<Device>) {
    forall i, j :: 0 <= i < j < |devices| && devices[i].rackPosition.Some? && devices[j].rackPosition.Some? ==>
      !ShareUnit(devices[i].rackPosition.value, devices[j].rackPosition.value)
  }

  lemma ShareUnitSymmetric(p: RackPosition, q: RackPosition)
    ensures ShareUnit(p, q) <==> ShareUnit(q, p)
  {
  }
}
