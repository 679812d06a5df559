/**
 * The Bean Validation constraints declared on ParkingSpotRequestDto and
 * RegisterUserDto, as predicates on the request records. An absent value
 * satisfies every constraint except `@NotNull` and `@NotBlank`, as the
 * Jakarta Validation specification prescribes.
 */
module Validation {
  import opened Model

  /** The characters `String.trim` removes: every code point up to U+0020. */
  predicate IsTrimmed(c: char) {
    c <= ' '
  }

  /** `s` with its leading trimmed characters removed. */
  function TrimStart(s: string): (r: string)
    ensures |r| <= |s| && r == s[|s| - |r|..]
    ensures r == [] || !IsTrimmed(r[0])
    ensures forall i | 0 <= i < |s| - |r| :: IsTrimmed(s[i])
  {
    if s != [] && IsTrimmed(s[0]) then TrimStart(s[1..]) else s
  }

  /** `s` with its trailing trimmed characters removed. */
  function TrimEnd(s: string): (r: string)
    ensures |r| <= |s| && r == s[..|r|]
    ensures r == [] || !IsTrimmed(r[|r| - 1])
    ensures forall i | |r| <= i < |s| :: IsTrimmed(s[i])
  {
    if s != [] && IsTrimmed(s[|s| - 1]) then TrimEnd(s[..|s| - 1]) else s
  }

  /** `String.trim`. */
  function Trim(s: string): string {
    TrimEnd(TrimStart(s))
  }

  /** A string trims to nothing exactly when all of its characters are trimmed. */
  lemma {:induction false} TrimEmptyIff(s: string)
    ensures Trim(s) == [] <==> forall i | 0 <= i < |s| :: IsTrimmed(s[i])
  {
    var t := TrimStart(s);
    if Trim(s) == [] {
      // the trimmed start is empty too, since it begins with a kept character
      assert t == [];
    } else {
      var r := Trim(s);
      assert !IsTrimmed(r[0]);
      assert r[0] == t[0] == s[|s| - |t|];
    }
  }

  /** `@NotBlank`: present, and not empty once trimmed. */
  predicate NotBlank(v: Option<string>) {
    v.Some? && |Trim(v.value)| > 0
  }

  /** `@NotBlank` holds exactly when the string has a character above U+0020. */
  lemma NotBlankIff(v: Option<string>)
    ensures NotBlank(v) <==> v.Some? && exists i | 0 <= i < |v.value| :: !IsTrimmed(v.value[i])
  {
    if v.Some? {
      TrimEmptyIff(v.value);
    }
  }

  /** `@Size(max = n)`. */
  predicate SizeAtMost(v: Option<string>, n: nat) {
    v.None? || |v.value| <= n
  }

  /** `@Size(min = n)`. */
  predicate SizeAtLeast(v: Option<string>, n: nat) {
    v.None? || |v.value| >= n
  }

  /** `@DecimalMin(lo)` and `@DecimalMax(hi)`, both inclusive. */
  predicate DecimalWithin(v: Option<real>, lo: real, hi: real) {
    v.None? || lo <= v.value <= hi
  }

  /** `@DecimalMin(value = lo, inclusive = false)`. */
  predicate DecimalAbove(v: Option<real>, lo: real) {
    v.None? || v.value > lo
  }

  /** The constraints of ParkingSpotRequestDto; the owner id is unconstrained. */
  function ValidSpotRequest(dto: SpotRequest): (ok: bool)
    ensures ok <==>
      && dto.title.Some? && (exists i | 0 <= i < |dto.title.value| :: !IsTrimmed(dto.title.value[i]))
      && |dto.title.value| <= 100
      && (dto.description.Some? ==> |dto.description.value| <= 500)
      && (dto.location.Some? ==> |dto.location.value| <= 255)
      && dto.latitude.Some? && -90.0 <= dto.latitude.value <= 90.0
      && dto.longitude.Some? && -180.0 <= dto.longitude.value <= 180.0
      && dto.slotType.Some? && (exists i | 0 <= i < |dto.slotType.value| :: !IsTrimmed(dto.slotType.value[i]))
      && dto.pricePerHour.Some? && dto.pricePerHour.value > 0.0
  {
    NotBlankIff(dto.title);
    NotBlankIff(dto.slotType);
    && NotBlank(dto.title) && SizeAtMost(dto.title, 100)
    && SizeAtMost(dto.description, 500)
    && SizeAtMost(dto.location, 255)
    && dto.latitude.Some? && DecimalWithin(dto.latitude, -90.0, 90.0)
    && dto.longitude.Some? && DecimalWithin(dto.longitude, -180.0, 180.0)
    && NotBlank(dto.slotType)
    && dto.pricePerHour.Some? && DecimalAbove(dto.pricePerHour, 0.0)
  }

  /**
   * The constraints of RegisterUserDto. The `@Email` format check is the
   * parameter `isEmail`; like every constraint but `@NotBlank` it accepts
   * an absent value.
   */
  function ValidRegistration(dto: RegisterRequest, isEmail: string -> bool): (ok: bool)
    ensures ok <==>
      && dto.firstName.Some? && (exists i | 0 <= i < |dto.firstName.value| :: !IsTrimmed(dto.firstName.value[i]))
      && dto.lastName.Some? && (exists i | 0 <= i < |dto.lastName.value| :: !IsTrimmed(dto.lastName.value[i]))
      && dto.email.Some? && (exists i | 0 <= i < |dto.email.value| :: !IsTrimmed(dto.email.value[i]))
      && isEmail(dto.email.value)
      && dto.password.Some? && (exists i | 0 <= i < |dto.password.value| :: !IsTrimmed(dto.password.value[i]))
      && |dto.password.value| >= 8
  {
    NotBlankIff(dto.firstName);
    NotBlankIff(dto.lastName);
    NotBlankIff(dto.email);
    NotBlankIff(dto.password);
    && NotBlank(dto.firstName)
    && NotBlank(dto.lastName)
    && NotBlank(dto.email) && (dto.email.None? || isEmail(dto.email.value))
    && NotBlank(dto.password) && SizeAtLeast(dto.password, 8)
  }

  /** Boundary cases: the coordinate ranges are closed, the price bound is open. */
  lemma SpotRequestBoundaries(dto: SpotRequest)
    requires ValidSpotRequest(dto)
    ensures ValidSpotRequest(dto.(latitude := Some(90.0), longitude := Some(-180.0)))
    ensures !ValidSpotRequest(dto.(pricePerHour := Some(0.0)))
    ensures !ValidSpotRequest(dto.(latitude := Some(90.5)))
    ensures !ValidSpotRequest(dto.(title := Some("   ")))
  {
  }
}
