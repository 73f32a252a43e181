/**
 * The probe's device types (src/probe/probe/device.py): an enumeration whose members are looked up by
 * name and printed as their value. Python strings are sequences of characters.
 */
module ProbeDevice {
  import opened Wrappers

  datatype DeviceType = Abb | Schneider

  /** The member's name, as `DeviceType[name]` looks it up. */
  function Name(d: DeviceType): string
  {
    match d
    case Abb => "abb"
    case Schneider => "schneider"
  }

  /** The member's value. */
  function Value(d: DeviceType): string
  {
    match d
    case Abb => "abb"
    case Schneider => "schneider"
  }

  /** `__str__`: the value, which for every member is also the name the lookup takes. */
  function Str(d: DeviceType): (s: string)
    ensures s == Name(d)
  {
    Value(d)
  }

  /** `from_string`: the member of that name, or nothing when the lookup raises `KeyError`. */
  function FromString(s: string): (d: Option<DeviceType>)
    ensures d.Some? <==> exists m :: Name(m) == s
    ensures d.Some? ==> Name(d.value) == s
  {
    if s == Name(Abb) then Some(Abb)
    else if s == Name(Schneider) then Some(Schneider)
    else None
  }

  /** Printing a member and looking the text up gives the member back, since names and values agree. */
  lemma StrRoundTrip(d: DeviceType)
    ensures FromString(Str(d)) == Some(d)
  {
    assert Name(Abb) != Name(Schneider);
  }

  /** The names `abb` and `schneider` are the two members; any other text is none. */
  lemma FromStringCases(s: string)
    ensures FromString("abb") == Some(Abb) && FromString("schneider") == Some(Schneider)
    ensures s != "abb" && s != "schneider" ==> FromString(s).None?
  {
  }
}
