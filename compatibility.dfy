/** `isBloodCompatible` (script.js:330-343): a fixed table from a blood label to a
    list of labels, consulted with the recipient's label as the key.

    The lists hold, for each key, the groups the key can DONATE to, so the relation
    the code computes is the converse of "the recipient can receive from the donor":
    `TableListsDonationTargets` proves the table equal to the ABO/RhD antigen rule
    with the key as the donor, and `CodeRelationIsConverseOfReceiveRule` states the
    consequence for the two arguments. */
module Compatibility {
  import opened JsArray

  /** The eight ABO/RhD labels the table knows. */
  const BloodLabels: seq<string> := ["A+", "A-", "B+", "B-", "AB+", "AB-", "O+", "O-"]

  /** The `compatibility` object of `isBloodCompatible`; a key it lacks gives None. */
  function CompatibilityList(key: string): Option<seq<string>>
  {
    if key == "A+" then Some(["A+", "AB+"])
    else if key == "A-" then Some(["A+", "A-", "AB+", "AB-"])
    else if key == "B+" then Some(["B+", "AB+"])
    else if key == "B-" then Some(["B+", "B-", "AB+", "AB-"])
    else if key == "AB+" then Some(["AB+"])
    else if key == "AB-" then Some(["AB+", "AB-"])
    else if key == "O+" then Some(["A+", "B+", "AB+", "O+"])
    else if key == "O-" then Some(["A+", "A-", "B+", "B-", "AB+", "AB-", "O+", "O-"])
    else None
  }

  /** The table looked up under the recipient's label, asked whether its list holds the
      donor's label, with false for a missing key: false unless both groups are among
      the eight labels; for a known key, true for the key itself and for "AB+", which
      every list holds. `TableListsDonationTargets` gives the whole relation. */
  predicate IsBloodCompatible(recipientBlood: string, donorBlood: string): (r: bool)
    ensures r ==> recipientBlood in BloodLabels && donorBlood in BloodLabels
    ensures recipientBlood in BloodLabels && (donorBlood == recipientBlood || donorBlood == "AB+") ==> r
  {
    match CompatibilityList(recipientBlood)
    case None => false
    case Some(list) => donorBlood in list
  }

  /** The antigens on a red cell: A, B and RhD. */
  datatype Antigens = Antigens(a: bool, b: bool, rhD: bool)

  /** The antigens that a label names; None for anything but the eight labels. */
  function AntigensOf(group: string): (r: Option<Antigens>)
    ensures r.Some? <==> group in BloodLabels
  {
    if group == "A+" then Some(Antigens(true, false, true))
    else if group == "A-" then Some(Antigens(true, false, false))
    else if group == "B+" then Some(Antigens(false, true, true))
    else if group == "B-" then Some(Antigens(false, true, false))
    else if group == "AB+" then Some(Antigens(true, true, true))
    else if group == "AB-" then Some(Antigens(true, true, false))
    else if group == "O+" then Some(Antigens(false, false, true))
    else if group == "O-" then Some(Antigens(false, false, false))
    else None
  }

  /** The red-cell rule: a donor may give to a recipient who carries every antigen the
      donor carries. */
  predicate CanDonateTo(donor: Antigens, recipient: Antigens)
  {
    (donor.a ==> recipient.a) && (donor.b ==> recipient.b) && (donor.rhD ==> recipient.rhD)
  }

  /** The rule as the medical table states it: `recipient` can receive from `donor`. */
  predicate CanReceiveFrom(recipient: string, donor: string)
  {
    AntigensOf(recipient).Some? && AntigensOf(donor).Some?
    && CanDonateTo(AntigensOf(donor).value, AntigensOf(recipient).value)
  }

  /** The table, as written, lists for each key exactly the labels that the key can
      donate to; every other key or entry gives false. */
  lemma TableListsDonationTargets(key: string, other: string)
    ensures IsBloodCompatible(key, other) <==>
      AntigensOf(key).Some? && AntigensOf(other).Some?
      && CanDonateTo(AntigensOf(key).value, AntigensOf(other).value)
  {
    if key !in BloodLabels {
      assert CompatibilityList(key).None?;
    } else if other !in BloodLabels {
      // every entry of every list is itself one of the eight labels
      forall x | x in CompatibilityList(key).value
        ensures x in BloodLabels
      { }
    }
  }

  /** Hence `isBloodCompatible(r, d)` holds exactly when `d` can receive from `r`: the
      arguments are used the other way round from their names. */
  lemma CodeRelationIsConverseOfReceiveRule(recipientBlood: string, donorBlood: string)
    ensures IsBloodCompatible(recipientBlood, donorBlood) <==> CanReceiveFrom(donorBlood, recipientBlood)
  {
    TableListsDonationTargets(recipientBlood, donorBlood);
  }

  /** The consequences the table has for the keys: "O-" matches every label, "AB+" only
      itself, every group matches itself, and a key outside the table matches nothing. */
  lemma TableExtremes(group: string, other: string)
    ensures group in BloodLabels ==> IsBloodCompatible("O-", group) && IsBloodCompatible(group, group)
    ensures IsBloodCompatible("AB+", other) <==> other == "AB+"
    ensures group !in BloodLabels ==> !IsBloodCompatible(group, other)
  {
    TableListsDonationTargets("O-", group);
    TableListsDonationTargets(group, group);
    TableListsDonationTargets("AB+", other);
    TableListsDonationTargets(group, other);
  }

  /** A recipient keyed "A+" is not matched with an "O-" donor, although the medical rule
      lets every recipient receive from "O-". */
  lemma UniversalDonorMissedForAPositive()
    ensures !IsBloodCompatible("A+", "O-")
    ensures CanReceiveFrom("A+", "O-")
  {
    assert AntigensOf("A+") == Some(Antigens(true, false, true));
    assert AntigensOf("O-") == Some(Antigens(false, false, false));
  }
}
