// Identities shared by every component: player and crop UUIDs, and block
// locations.

module Ids {
  import opened Wrappers

  predicate IsHexLower(c: char) { '0' <= c <= '9' || 'a' <= c <= 'f' }

  /** The canonical text form that `UUID.toString()` produces: 32 lower-case
      hexadecimal digits in groups of 8-4-4-4-12 separated by dashes. */
  predicate IsUuidText(s: string)
  {
    |s| == 36 &&
    forall i :: 0 <= i < 36 ==>
      if i == 8 || i == 13 || i == 18 || i == 23 then s[i] == '-' else IsHexLower(s[i])
  }

  /** A UUID, represented by its canonical text. Two UUIDs are equal exactly
      when their texts are. */
  type Uuid = s: string | IsUuidText(s) witness "00000000-0000-0000-0000-000000000000"

  /** `UUID.fromString`, accepting the canonical form; anything else is the
      IllegalArgumentException it throws, here None. */
  function ParseUuid(s: string): (r: Option<Uuid>)
    ensures r.Some? <==> IsUuidText(s)
    ensures r.Some? ==> r.value == s
  {
    if IsUuidText(s) then var u: Uuid := s; Some(u) else None
  }

  /** The text of a UUID never contains a comma and is never empty. */
  lemma UuidTextHasNoComma(u: Uuid)
    ensures ',' !in u && u != ""
  {
  }

  /** A block position: the world's name and integer block coordinates. */
  datatype Location = Location(world: string, x: int, y: int, z: int)
}
