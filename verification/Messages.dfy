/** Log messages: a header with timestamp, facility, severity and origin, and the text. */
module Messages {

  type uint32 = n: nat | n < 0x1_0000_0000
  type uint64 = n: nat | n < 0x1_0000_0000_0000_0000

  /** Strings held in a `ShortString<255>`. */
  type Name = s: string | |s| <= 255

  /** Strings held in a `ShortString<1500>`. */
  type Text = s: string | |s| <= 1500

  datatype Origin = Origin(hostname: Name, appname: Name, procid: uint32)

  /** Facility and severity are bytes; a header read from the wire may hold values that are
      not in their enumerations. The timestamp counts microseconds from the epoch. */
  datatype Header = Header(timestamp: uint64, facility: bv8, severity: bv8, origin: Origin)

  datatype Message = Message(header: Header, text: Text)

  function Secs(timestamp: uint64): nat { timestamp / 1000000 }

  function Usecs(timestamp: uint64): nat { timestamp % 1000000 }

  const LOCAL7: bv8 := 184
  const DEBUG: bv8 := 7

  /** The facilities of the enumeration: the multiples of 8 from `kernel` to `ftp` and from
      `local0` to `local7`. */
  predicate IsFacility(f: bv8) {
    f & 7 == 0 && (f <= 88 || 128 <= f <= LOCAL7)
  }

  predicate IsSeverity(s: bv8) {
    s <= DEBUG
  }
}
