/** The markers by which a delivery recognises its own work in a profile's description. */
module Markers {
  import opened Wrappers
  import Usernames

  /** Python's `needle in hay`. */
  predicate Contains(hay: string, needle: string) {
    exists i | 0 <= i <= |hay| :: OccursAt(hay, needle, i)
  }

  predicate OccursAt(hay: string, needle: string, i: nat) {
    i + |needle| <= |hay| && hay[i..i + |needle|] == needle
  }

  /** One text is in another exactly when the other is it with something before and behind. */
  lemma ContainsIff(hay: string, needle: string)
    ensures Contains(hay, needle) <==> exists before: string, behind: string :: hay == before + needle + behind
  {
    if Contains(hay, needle) {
      var i :| 0 <= i <= |hay| && OccursAt(hay, needle, i);
      assert hay == hay[..i] + needle + hay[i + |needle|..];
    }
    if before: string, behind: string :| hay == before + needle + behind {
      assert OccursAt(hay, needle, |before|);
    }
  }

  function ProvisioningMarker(tx: string): string { "provisioning:" + tx }

  function DeliveryMarker(tx: string): string { "delivery:" + tx }

  function ShowInt(n: int): string {
    if n < 0 then "-" + Usernames.Decimal(-n) else Usernames.Decimal(n)
  }

  function OrNone(s: Option<string>): string {
    if s.None? || s.value == "" then "none" else s.value
  }

  function Metadata(userId: int, tgId: Option<int>, source: string, tgUsername: Option<string>): string {
    "; db_user_id:" + ShowInt(userId) + "; tg_id:" + (if tgId.None? then "none" else ShowInt(tgId.value))
    + "; source:" + source + "; tg_username:" + OrNone(tgUsername)
  }

  /** `provisioning_description`. */
  function ProvisioningDescription(tx: string, userId: int, tgId: Option<int>, source: string,
                                   tgUsername: Option<string>, description: string): string {
    ProvisioningMarker(tx)
    + (Metadata(userId, tgId, source, tgUsername) + (if description == "" then "" else "; " + description))
  }

  /** `delivery_description`; the empty description stands for a missing one. */
  function DeliveryDescription(tx: string, description: string): string {
    var marker := DeliveryMarker(tx);
    if description != "" && Contains(description, marker) then description
    else if description != "" then marker + "; " + description
    else marker
  }

  lemma PrefixContained(needle: string, rest: string)
    ensures Contains(needle + rest, needle)
  {
    assert OccursAt(needle + rest, needle, 0);
  }

  /** A created profile carries the provisioning marker of its order. */
  lemma ProvisioningCarries(tx: string, userId: int, tgId: Option<int>, source: string,
                            tgUsername: Option<string>, description: string)
    ensures Contains(ProvisioningDescription(tx, userId, tgId, source, tgUsername, description), ProvisioningMarker(tx))
  {
    PrefixContained(ProvisioningMarker(tx),
                    Metadata(userId, tgId, source, tgUsername)
                        + (if description == "" then "" else "; " + description));
  }

  /** A renewed profile carries the delivery marker of its order. */
  lemma DeliveryCarries(tx: string, description: string)
    ensures Contains(DeliveryDescription(tx, description), DeliveryMarker(tx))
  {
    var m := DeliveryMarker(tx);
    PrefixContained(m, "; " + description);
    PrefixContained(m, "");
    assert m + "" == m;
    assert m + ("; " + description) == m + "; " + description;
  }

  /** Where a text has its one colon, a marker can only start a fixed number of characters before it. */
  lemma MarkerPosition(hay: string, needle: string, colon: nat, at: nat)
    requires colon < |hay| && forall i :: 0 <= i < |hay| && hay[i] == ':' ==> i == colon
    requires at < |needle| && needle[at] == ':'
    ensures Contains(hay, needle) ==> at <= colon && OccursAt(hay, needle, colon - at)
  {
    if Contains(hay, needle) {
      var i :| 0 <= i <= |hay| && OccursAt(hay, needle, i);
      assert hay[i + at] == hay[i..i + |needle|][at];
    }
  }

  lemma NoColonNoMarker(text: string, needle: string, at: nat)
    requires ':' !in text && at < |needle| && needle[at] == ':'
    ensures !Contains(text, needle)
  {
    forall i | 0 <= i <= |text| ensures !OccursAt(text, needle, i) {
      assert i + |needle| <= |text| ==> text[i + at] == text[i..i + |needle|][at];
    }
  }

  /** A renewal's description has one colon, so a delivery marker is in it only at its start, and a
      provisioning marker nowhere. Order ids and the text contain no colon. */
  lemma MarkersAtStart(tx: string, other: string, text: string)
    requires ':' !in other && ':' !in text
    ensures Contains(DeliveryDescription(other, text), DeliveryMarker(tx))
            <==> DeliveryMarker(tx) <= DeliveryMarker(other) + After(text)
    ensures !Contains(DeliveryDescription(other, text), ProvisioningMarker(tx))
  {
    var m := DeliveryMarker(other);
    NoColonNoMarker(text, m, 8);
    var d := m + After(text);
    assert DeliveryDescription(other, text) == d;
    OneColon(other, After(text));
    MarkerPosition(d, DeliveryMarker(tx), 8, 8);
    MarkerPosition(d, ProvisioningMarker(tx), 8, 12);
    if DeliveryMarker(tx) <= d {
      assert OccursAt(d, DeliveryMarker(tx), 0);
    }
  }

  /** What follows the marker. */
  function After(text: string): string { if text == "" then "" else "; " + text }

  lemma MarkerPrefix(tx: string, other: string, rest: string)
    ensures DeliveryMarker(tx) <= DeliveryMarker(other) + rest <==> tx <= other + rest
  {
    var m, d := DeliveryMarker(tx), DeliveryMarker(other) + rest;
    assert m[9..] == tx && d[9..] == other + rest;
    assert m[..9] == d[..9];
    assert m == m[..9] + m[9..] && d == d[..9] + d[9..];
    if m <= d {
      assert tx == d[9..][..|tx|];
    }
    if tx <= other + rest {
      assert m == d[..|m|];
    }
  }

  lemma NoSemicolonPrefix(tx: string, other: string, text: string)
    requires ';' !in tx
    ensures tx <= other + After(text) <==> tx <= other
  {
    var whole := other + After(text);
    assert |whole| > |other| ==> whole[|other|] == ';';
    if tx <= whole {
      assert forall i :: 0 <= i < |tx| ==> whole[i] == tx[i] && tx[i] in tx;
      assert whole[..|other|] == other;
    }
    if tx <= other {
      assert whole[..|tx|] == other[..|tx|];
    }
  }

  /** A renewal for one order is taken for the delivery of another if and only if the other's id is a
      prefix of its own. Order ids contain no semicolon either. */
  lemma RenewalPassesForIff(tx: string, other: string, text: string)
    requires ':' !in other && ':' !in text && ';' !in tx
    ensures Contains(DeliveryDescription(other, text), DeliveryMarker(tx)) <==> tx <= other
    ensures !Contains(DeliveryDescription(other, text), ProvisioningMarker(tx))
  {
    MarkersAtStart(tx, other, text);
    MarkerPrefix(tx, other, After(text));
    NoSemicolonPrefix(tx, other, text);
  }

  /** Renewing for another order of equally long id erases every marker of the first: its next
      attempt would not recognise its own delivery. */
  lemma RenewalErasesOtherMarkers(tx: string, other: string, text: string)
    requires |tx| == |other| && ':' !in other && ':' !in text
    ensures Contains(DeliveryDescription(other, text), DeliveryMarker(tx)) <==> tx == other
    ensures !Contains(DeliveryDescription(other, text), ProvisioningMarker(tx))
  {
    MarkersAtStart(tx, other, text);
    MarkerPrefix(tx, other, After(text));
    assert (other + After(text))[..|other|] == other;
  }

  lemma OneColon(other: string, rest: string)
    requires ':' !in other && ':' !in rest
    ensures var d := DeliveryMarker(other) + rest;
            |d| > 8 && forall i :: 0 <= i < |d| && d[i] == ':' ==> i == 8
  {
    var m := DeliveryMarker(other);
    var d := m + rest;
    forall i | 0 <= i < |d| && i != 8 ensures d[i] != ':' {
      if 9 <= i < |m| {
        assert d[i] == other[i - 9];
      } else if i >= |m| {
        assert d[i] == rest[i - |m|];
      }
    }
  }
}
