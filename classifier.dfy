/** `type_of_recording`: which acquisition lineage produced a file, read from its header. */
module Classifier {
  import opened Wrappers
  import opened Text
  import opened Values

  /** The members of the acquisition-type enumeration that the header refers to. */
  datatype AcqType = PRE4 | BML | DIGITALLYNX | DIGITALLYNXSX | CHEETAH64 | RAWDATAFILE | CHEETAH560 | UNKNOWN

  /** A member's name. */
  function NameOf(t: AcqType): string {
    match t
    case PRE4 => "PRE4"
    case BML => "BML"
    case DIGITALLYNX => "DIGITALLYNX"
    case DIGITALLYNXSX => "DIGITALLYNXSX"
    case CHEETAH64 => "CHEETAH64"
    case RAWDATAFILE => "RAWDATAFILE"
    case CHEETAH560 => "CHEETAH560"
    case UNKNOWN => "UNKNOWN"
  }

  /** `AcqType[name]`: the member with that exact name, if any. */
  function Named(name: string): (r: Option<AcqType>)
    ensures r.Some? ==> NameOf(r.value) == name
  {
    if name == "PRE4" then Some(PRE4)
    else if name == "BML" then Some(BML)
    else if name == "DIGITALLYNX" then Some(DIGITALLYNX)
    else if name == "DIGITALLYNXSX" then Some(DIGITALLYNXSX)
    else if name == "CHEETAH64" then Some(CHEETAH64)
    else if name == "RAWDATAFILE" then Some(RAWDATAFILE)
    else if name == "CHEETAH560" then Some(CHEETAH560)
    else if name == "UNKNOWN" then Some(UNKNOWN)
    else None
  }

  /** Every member's name is upper-case letters and digits. */
  lemma NameUpperAlnum(t: AcqType)
    ensures IsUpperAlnum(NameOf(t))
  {
  }

  /** The lookup finds every member by its name, and only by it. */
  lemma NamedRoundTrip(t: AcqType, name: string)
    ensures Named(NameOf(t)) == Some(t)
    ensures Named(name) == Some(t) <==> name == NameOf(t)
  {
  }

  /** `m[key] == text`: false, without an error, when the value is not that text. */
  predicate Holds(m: Props, key: string, text: string)
    requires key in m
  {
    m[key] == Str(text)
  }

  /** The file versions whose acquisition system names the type. */
  predicate NamedByAcquisitionSystem(m: Props) {
    "FileVersion" in m && m["FileVersion"] in {Str("3.2"), Str("3.3"), Str("3.4")}
  }

  /** `AcqType[self["AcquisitionSystem"].split()[1].upper()]`. */
  function FromAcquisitionSystem(m: Props): (r: Result<AcqType, Error>)
    ensures r.Success? ==> ("AcquisitionSystem" in m && m["AcquisitionSystem"].Str?
      && |Tokens(NonSpace, m["AcquisitionSystem"].text)| >= 2
      && NameOf(r.value) == Upper(Tokens(NonSpace, m["AcquisitionSystem"].text)[1]))
    ensures ("AcquisitionSystem" in m && m["AcquisitionSystem"].Str?
      && |Tokens(NonSpace, m["AcquisitionSystem"].text)| >= 2
      && Named(Upper(Tokens(NonSpace, m["AcquisitionSystem"].text)[1])).Some?) ==>
      r == Success(Named(Upper(Tokens(NonSpace, m["AcquisitionSystem"].text)[1])).value)
  {
    if "AcquisitionSystem" !in m then Failure(MissingKey("AcquisitionSystem"))
    else match m["AcquisitionSystem"]
      case Str(t) =>
        var tokens := Tokens(NonSpace, t);
        if |tokens| < 2 then Failure(NoSecondToken(t))
        else
          var name := Upper(tokens[1]);
          (match Named(name)
           case Some(a) => Success(a)
           case None => Failure(UnknownAcqType(name)))
      case _ => Failure(WrongType("AcquisitionSystem"))
  }

  /** `type_of_recording`: the first of the four groups whose key the header has decides. */
  function TypeOfRecording(m: Props): (r: Result<AcqType, Error>)
    ensures r.Failure? ==> r == FromAcquisitionSystem(m)
  {
    if "NLX_Base_Class_Type" in m then
      if Holds(m, "NLX_Base_Class_Type", "CscAcqEnt") then Success(PRE4)
      else if Holds(m, "NLX_Base_Class_Type", "BmlAcq") then Success(BML)
      else Success(UNKNOWN)
    else if "HardwareSubSystemType" in m then
      if Holds(m, "HardwareSubSystemType", "DigitalLynx") then Success(DIGITALLYNX)
      else if Holds(m, "HardwareSubSystemType", "DigitalLynxSX") then Success(DIGITALLYNXSX)
      else if Holds(m, "HardwareSubSystemType", "Cheetah64") then Success(CHEETAH64)
      else if Holds(m, "HardwareSubSystemType", "RawDataFile") then Success(RAWDATAFILE)
      else Success(UNKNOWN)
    else if "FileType" in m then
      if NamedByAcquisitionSystem(m) then FromAcquisitionSystem(m)
      else Success(CHEETAH560)
    else Success(UNKNOWN)
  }

  /** A base class type decides alone, whatever else the header holds. */
  lemma BaseClassFirst(m: Props)
    requires "NLX_Base_Class_Type" in m
    ensures TypeOfRecording(m) == Success(
      if m["NLX_Base_Class_Type"] == Str("CscAcqEnt") then PRE4
      else if m["NLX_Base_Class_Type"] == Str("BmlAcq") then BML
      else UNKNOWN)
  {
  }

  /** Without a base class type, the hardware subsystem decides. */
  lemma SubsystemSecond(m: Props)
    requires "NLX_Base_Class_Type" !in m && "HardwareSubSystemType" in m
    ensures TypeOfRecording(m).Success?
    ensures TypeOfRecording(m).value in {DIGITALLYNX, DIGITALLYNXSX, CHEETAH64, RAWDATAFILE, UNKNOWN}
    ensures TypeOfRecording(m).value != UNKNOWN ==>
      m["HardwareSubSystemType"] == Str(if TypeOfRecording(m).value == DIGITALLYNX then "DigitalLynx"
        else if TypeOfRecording(m).value == DIGITALLYNXSX then "DigitalLynxSX"
        else if TypeOfRecording(m).value == CHEETAH64 then "Cheetah64"
        else "RawDataFile")
    ensures TypeOfRecording(m) == Success(
      if m["HardwareSubSystemType"] == Str("DigitalLynx") then DIGITALLYNX
      else if m["HardwareSubSystemType"] == Str("DigitalLynxSX") then DIGITALLYNXSX
      else if m["HardwareSubSystemType"] == Str("Cheetah64") then CHEETAH64
      else if m["HardwareSubSystemType"] == Str("RawDataFile") then RAWDATAFILE
      else UNKNOWN)
  {
  }

  /** The classification fails only in the file-type group, for the listed file versions,
      and exactly when the acquisition system does not name a member. */
  lemma FailsOnlyOnAcquisitionSystem(m: Props)
    ensures TypeOfRecording(m).Failure? <==>
      ("NLX_Base_Class_Type" !in m && "HardwareSubSystemType" !in m && "FileType" in m
       && NamedByAcquisitionSystem(m) && FromAcquisitionSystem(m).Failure?)
  {
  }

  /** In the file-type group, the listed file versions take the acquisition system's word,
      with its outcome, success or error. */
  lemma FileTypeListedVersion(m: Props)
    requires "NLX_Base_Class_Type" !in m && "HardwareSubSystemType" !in m && "FileType" in m
    requires NamedByAcquisitionSystem(m)
    ensures TypeOfRecording(m) == FromAcquisitionSystem(m)
  {
  }

  /** A file type without one of the listed versions is the 5.6.0 lineage; no group key at
      all is unknown. */
  lemma FileTypeFallbacks(m: Props)
    requires "NLX_Base_Class_Type" !in m && "HardwareSubSystemType" !in m
    ensures "FileType" in m && !NamedByAcquisitionSystem(m) ==> TypeOfRecording(m) == Success(CHEETAH560)
    ensures "FileType" !in m ==> TypeOfRecording(m) == Success(UNKNOWN)
  {
  }

  /** The acquisition system's second word names the type case-insensitively: a Latin-1 word
      other than one holding `ß` names a member only if it is made of ASCII letters and
      digits, and then the member is the one whose name is its upper-case form. */
  lemma AcquisitionSystemWord(m: Props, w: string)
    requires FromAcquisitionSystem(m).Success?
    requires w == Tokens(NonSpace, m["AcquisitionSystem"].text)[1]
    requires forall k :: 0 <= k < |w| ==> w[k] <= '\U{FF}' && w[k] != '\U{DF}'
    ensures forall k :: 0 <= k < |w| ==> ('a' <= w[k] <= 'z' || 'A' <= w[k] <= 'Z' || IsDecimal(w[k]))
    ensures |w| == |NameOf(FromAcquisitionSystem(m).value)|
  {
    NameUpperAlnum(FromAcquisitionSystem(m).value);
    UpperAlnumSource(w);
  }
}
