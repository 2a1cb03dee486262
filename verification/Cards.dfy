/** Control card selections and vendor identities, with protobuf's nil-safe getters. */
module Cards {
  import opened Common

  datatype Selection = ByRole(role: nat) | BySerial(serial: string) | BySlot(slot: string)

  datatype CardId = CardId(
    role: nat, controlCardSerial: string, controlCardSlot: string,
    chassisManufacturer: string, chassisPartNumber: string, chassisSerialNumber: string)

  function SerialOf(id: Option<CardId>): string {
    if id.Some? then id.value.controlCardSerial else ""
  }

  function ManufacturerOf(id: Option<CardId>): string {
    if id.Some? then id.value.chassisManufacturer else ""
  }

  /** The serial and chassis manufacturer of a card id; both are empty when there is none. */
  predicate Identifies(id: Option<CardId>, serial: string, supplier: string) {
    match id
    case None => serial == "" && supplier == ""
    case Some(card) => serial == card.controlCardSerial && supplier == card.chassisManufacturer
  }
}
