/**
 * Graphics vendor and graphics-control action names (rog-types/src/gfx_vendors.rs): parsing
 * from text, case-insensitively, and printing back.
 */
module RogTypesGfx {
  import opened Basics

  datatype GfxVendors = Nvidia | Integrated | Compute | Hybrid

  datatype GfxCtrlAction = Reboot | RestartX | None

  /** rog-types/src/error.rs */
  datatype GraphicsError = ParseVendor | ParsePower

  /** `char::to_lowercase` on the ASCII letters; every other character is kept. */
  function LowerChar(c: char): char {
    if 'A' <= c <= 'Z' then (c as int + 32) as char else c
  }

  function UpperChar(c: char): char {
    if 'a' <= c <= 'z' then (c as int - 32) as char else c
  }

  /** `str::to_lowercase`, character by character. */
  function ToLowercase(s: string): (r: string)
    ensures |r| == |s|
    ensures forall i :: 0 <= i < |s| ==> r[i] == LowerChar(s[i])
  {
    if s == [] then [] else [LowerChar(s[0])] + ToLowercase(s[1..])
  }

  function ToUppercase(s: string): (r: string)
    ensures |r| == |s|
    ensures forall i :: 0 <= i < |s| ==> r[i] == UpperChar(s[i])
  {
    if s == [] then [] else [UpperChar(s[0])] + ToUppercase(s[1..])
  }

  /** Text that `to_lowercase` leaves as it is. */
  predicate IsLowercase(s: string) {
    forall i :: 0 <= i < |s| ==> !('A' <= s[i] <= 'Z')
  }

  /** Lowercasing twice is lowercasing once. */
  lemma {:induction false} LowercaseIdempotent(s: string)
    ensures ToLowercase(ToLowercase(s)) == ToLowercase(s)
  {
    if s != [] {
      LowercaseIdempotent(s[1..]);
      assert ToLowercase(s)[1..] == ToLowercase(s[1..]);
    }
  }

  /** Lowercasing the uppercase form of lowercase text gives the text back. */
  lemma {:induction false} LowerOfUpper(s: string)
    requires IsLowercase(s)
    ensures ToLowercase(ToUppercase(s)) == s
  {
    if s != [] {
      LowerOfUpper(s[1..]);
      assert ToUppercase(s)[1..] == ToUppercase(s[1..]);
    }
  }

  /** `From<&GfxVendors> for &str`. */
  function VendorName(v: GfxVendors): (r: string)
    ensures IsLowercase(r) && '\n' !in r && |r| > 0
  {
    match v
    case Nvidia => "nvidia"
    case Hybrid => "hybrid"
    case Compute => "compute"
    case Integrated => "integrated"
  }

  /** `FromStr for GfxVendors`: one of the four names, or one of them followed by a newline. */
  function ParseVendor(s: string): (r: Result<GfxVendors, GraphicsError>)
    ensures r.Ok? ==> ToLowercase(s) == VendorName(r.value) || ToLowercase(s) == VendorName(r.value) + "\n"
    ensures r.Err? ==> r.error == GraphicsError.ParseVendor
  {
    var l := ToLowercase(s);
    if l == "nvidia" then Ok(Nvidia)
    else if l == "hybrid" then Ok(Hybrid)
    else if l == "compute" then Ok(Compute)
    else if l == "integrated" then Ok(Integrated)
    else if l == "nvidia\n" then Ok(Nvidia)
    else if l == "hybrid\n" then Ok(Hybrid)
    else if l == "compute\n" then Ok(Compute)
    else if l == "integrated\n" then Ok(Integrated)
    else Err(GraphicsError.ParseVendor)
  }

  /** The vendor names are distinct, lowercase and carry no newline. */
  lemma VendorNamesWellFormed(v: GfxVendors, w: GfxVendors)
    ensures VendorName(v) == VendorName(w) ==> v == w
    ensures IsLowercase(VendorName(v))
    ensures '\n' !in VendorName(v)
  {
  }

  /** Parsing accepts exactly a vendor's name, in any case, optionally followed by one newline. */
  lemma ParseVendorAccepts(s: string, v: GfxVendors)
    ensures ParseVendor(s) == Ok(v) <==>
      ToLowercase(s) == VendorName(v) || ToLowercase(s) == VendorName(v) + "\n"
  {
  }

  /** Every rejection is `ParseVendor`. */
  lemma ParseVendorRejects(s: string)
    ensures ParseVendor(s).Err? <==>
      forall v: GfxVendors :: ToLowercase(s) != VendorName(v) && ToLowercase(s) != VendorName(v) + "\n"
    ensures ParseVendor(s).Err? ==> ParseVendor(s).error == GraphicsError.ParseVendor
  {
    if ParseVendor(s).Ok? {
      ParseVendorAccepts(s, ParseVendor(s).value);
    }
  }

  /** Parsing ignores case. */
  lemma {:induction false} ParseVendorIgnoresCase(s: string)
    ensures ParseVendor(s) == ParseVendor(ToLowercase(s))
    ensures ParseVendor(ToUppercase(s)) == ParseVendor(s)
  {
    LowercaseIdempotent(s);
    LowerOfUpperAny(s);
  }

  /** Lowercasing forgets whether the text was uppercased first. */
  lemma {:induction false} LowerOfUpperAny(s: string)
    ensures ToLowercase(ToUppercase(s)) == ToLowercase(s)
  {
    if s != [] {
      LowerOfUpperAny(s[1..]);
      assert ToUppercase(s)[1..] == ToUppercase(s[1..]);
    }
  }

  /** Printing a vendor and parsing it back, in either case and with a trailing newline, gives it back. */
  lemma {:induction false} VendorRoundTrip(v: GfxVendors)
    ensures ParseVendor(VendorName(v)) == Ok(v)
    ensures ParseVendor(ToUppercase(VendorName(v))) == Ok(v)
    ensures ParseVendor(VendorName(v) + "\n") == Ok(v)
  {
    VendorNamesWellFormed(v, v);
    LowercaseIdempotent(VendorName(v));
    LowerOfUpper(VendorName(v));
    LowercaseNewline(VendorName(v));
  }

  /** A trailing newline survives lowercasing. */
  lemma LowercaseNewline(s: string)
    ensures ToLowercase(s + "\n") == ToLowercase(s) + "\n"
  {
    var r := ToLowercase(s + "\n");
    assert r == ToLowercase(s) + "\n" by {
      assert |r| == |ToLowercase(s) + "\n"|;
      forall i | 0 <= i < |r| ensures r[i] == (ToLowercase(s) + "\n")[i] {
        if i < |s| { assert (s + "\n")[i] == s[i]; }
      }
    }
  }

  /** `From<&GfxCtrlAction> for &str`. */
  function ActionStr(a: GfxCtrlAction): (r: string)
    ensures IsLowercase(r) && '\n' !in r && |r| > 0
  {
    match a
    case Reboot => "reboot"
    case RestartX => "restartx"
    case None => "none"
  }

  /** `From<&GfxCtrlAction> for String` (and `From<GfxCtrlAction>`, which delegates to it). */
  function ActionString(a: GfxCtrlAction): (r: string)
    ensures r == ActionStr(a)
  {
    match a
    case Reboot => "reboot"
    case RestartX => "restartx"
    case None => "none"
  }

  /** `FromStr for GfxCtrlAction`: no newline forms; failure is reported as `ParseVendor`. */
  function ParseAction(s: string): (r: Result<GfxCtrlAction, GraphicsError>)
    ensures r.Ok? ==> ToLowercase(s) == ActionStr(r.value)
    ensures r.Err? ==> r.error == GraphicsError.ParseVendor
  {
    var l := ToLowercase(s);
    if l == "reboot" then Ok(Reboot)
    else if l == "restartx" then Ok(RestartX)
    else if l == "none" then Ok(GfxCtrlAction.None)
    else Err(GraphicsError.ParseVendor)
  }

  /** Parsing accepts exactly an action's name, in any case, and nothing with a newline. */
  lemma ParseActionAccepts(s: string, a: GfxCtrlAction)
    ensures ParseAction(s) == Ok(a) <==> ToLowercase(s) == ActionStr(a)
    ensures ParseAction(s).Err? ==> ParseAction(s).error == GraphicsError.ParseVendor
  {
  }

  /** Both printed forms of an action parse back to it, in either case. */
  lemma {:induction false} ActionRoundTrip(a: GfxCtrlAction)
    ensures ParseAction(ActionStr(a)) == Ok(a)
    ensures ParseAction(ActionString(a)) == Ok(a)
    ensures ParseAction(ToUppercase(ActionStr(a))) == Ok(a)
  {
    assert IsLowercase(ActionStr(a));
    LowercaseIdempotent(ActionStr(a));
    LowerOfUpper(ActionStr(a));
  }

  /** A trailing newline is rejected for actions, unlike for vendors. */
  lemma ActionRejectsNewline(a: GfxCtrlAction)
    ensures ParseAction(ActionStr(a) + "\n").Err?
  {
    var s := ActionStr(a) + "\n";
    LowercaseNewline(ActionStr(a));
    assert ToLowercase(s)[|s| - 1] == '\n';
  }
}
