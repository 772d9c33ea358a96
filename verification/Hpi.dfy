/** Types and constants shared by the model, with the values of include/SaHpi.h and include/oHpi.h. */
module Hpi {

  const TWO31 := 0x8000_0000
  const TWO32 := 0x1_0000_0000

  type U16 = x: int | 0 <= x < 0x1_0000
  type U32 = x: int | 0 <= x < 0x1_0000_0000

  const FIRST_ENTRY: U32 := 0
  const LAST_ENTRY: U32 := 0xFFFF_FFFF
  const DEFAULT_DOMAIN_ID: U32 := 0
  const UNSPECIFIED_DOMAIN_ID: U32 := 0xFFFF_FFFF
  const DEFAULT_DAEMON_PORT: U16 := 4743
  const MAX_TEXT_BUFFER_LENGTH: nat := 255

  type SaErrorT = int
  const SA_OK: SaErrorT := 0
  const SA_ERR_HPI_UNSUPPORTED_API: SaErrorT := -1002
  const SA_ERR_HPI_INTERNAL_ERROR: SaErrorT := -1004
  const SA_ERR_HPI_OUT_OF_SPACE: SaErrorT := -1007
  const SA_ERR_HPI_INVALID_PARAMS: SaErrorT := -1009
  const SA_ERR_HPI_NOT_PRESENT: SaErrorT := -1011
  const SA_ERR_HPI_NO_RESPONSE: SaErrorT := -1012
  const SA_ERR_HPI_DUPLICATE: SaErrorT := -1013
  const SA_ERR_HPI_INVALID_SESSION: SaErrorT := -1014
  const SA_ERR_HPI_INVALID_DOMAIN: SaErrorT := -1015

  datatype Option<+T> = None | Some(value: T)

  const ENT_ROOT := 0xFFFF
  const MAX_ENTITY_PATH: nat := 16

  datatype Entity = Entity(kind: int, location: int)

  const ROOT := Entity(ENT_ROOT, 0)

  /** What oh_init_ep leaves in a path. */
  const ROOT_PATH := [ROOT, ROOT, ROOT, ROOT, ROOT, ROOT, ROOT, ROOT, ROOT, ROOT, ROOT, ROOT, ROOT, ROOT, ROOT, ROOT]

  type EntityPath = p: seq<Entity> | |p| == MAX_ENTITY_PATH witness ROOT_PATH

  /** strncpy into a buffer of MAX_TEXT_BUFFER_LENGTH characters: the longest prefix that fits. */
  function Clip(s: string): (r: string)
    ensures r <= s && |r| == if |s| < MAX_TEXT_BUFFER_LENGTH then |s| else MAX_TEXT_BUFFER_LENGTH
    ensures |s| <= MAX_TEXT_BUFFER_LENGTH ==> r == s
  {
    if |s| <= MAX_TEXT_BUFFER_LENGTH then s else s[..MAX_TEXT_BUFFER_LENGTH]
  }

  /** The 32-bit pattern of d read as a C int. */
  function Signed(d: U32): int
  {
    if d < TWO31 then d else d - TWO32
  }

  /** The inverse cast, from a C int back to SaHpiUint32T. */
  function Unsigned(x: int): U32
    requires -TWO31 <= x < TWO31
  {
    if x < 0 then x + TWO32 else x
  }
}
