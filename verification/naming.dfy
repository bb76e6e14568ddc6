/** How a Networker normalises the name and service type it is created with
    (Networker.swift, `init`): the name is cut to 63 UTF-8 bytes, the service type
    is lower-cased, stripped to `[a-z0-9-]`, has runs of `-` collapsed and is cut
    to 15 characters. */
module Naming {
  import Utf8
  import Strings

  const MaxNameBytes := 63
  const MaxServiceTypeLength := 15

  /** The scalars a service type may keep: `"abcdefghijklmnopqrstuvwxyz1234567890-"`. */
  predicate IsServiceTypeChar(c: char)
  {
    ('a' <= c <= 'z') || ('0' <= c <= '9') || c == '-'
  }

  const ServiceTypeChars: set<char> := set c: char | 'a' <= c <= 'z' || '0' <= c <= '9' || c == '-'

  /** `lowercased()`, restricted to ASCII letters. */
  function Lowercased(s: string): (r: string)
    ensures |r| == |s|
    ensures forall i :: 0 <= i < |s| ==>
      r[i] == if 'A' <= s[i] <= 'Z' then (s[i] as int + 32) as char else s[i]
  {
    if |s| == 0 then ""
    else [if 'A' <= s[0] <= 'Z' then (s[0] as int + 32) as char else s[0]] + Lowercased(s[1..])
  }

  /** `name.prefixUTF8Bytes(63)` */
  function NormalisedName(name: string): string
  {
    Strings.PrefixUtf8Bytes(name, MaxNameBytes)
  }

  /** The stored name is a prefix of the given name, at most 63 UTF-8 bytes long,
      and equal to it when the given name already fits. */
  lemma NormalisedNameSpec(name: string)
    ensures Strings.IsPrefix(NormalisedName(name), name)
    ensures Utf8.Length(NormalisedName(name)) <= MaxNameBytes
    ensures |Utf8.Encode(NormalisedName(name))| <= MaxNameBytes
    ensures Utf8.Length(name) <= MaxNameBytes ==> NormalisedName(name) == name
  {
    Strings.PrefixUtf8BytesSpec(name, MaxNameBytes);
  }

  /** The service type before the 15-character cut. */
  function CollapsedServiceType(serviceType: string): string
  {
    var kept := Strings.RemovingCharacters(Lowercased(serviceType), Strings.Only(ServiceTypeChars).Inverted());
    Strings.RemovingAdjacentOccurrences(kept, "-")
  }

  /** `String(serviceType.lowercased().removingCharacters(in: allowed.inverted)
      .removingAdjacentOccurences(of: "-").prefix(15))` */
  function NormalisedServiceType(serviceType: string): string
  {
    var collapsed := CollapsedServiceType(serviceType);
    if |collapsed| <= MaxServiceTypeLength then collapsed else collapsed[..MaxServiceTypeLength]
  }

  lemma NoPairInPrefix(s: string, k: nat, pat: string)
    requires k <= |s|
    requires !Strings.Contains(s, pat)
    ensures !Strings.Contains(s[..k], pat)
  {
    forall i | 0 <= i <= |s[..k]|
      ensures !Strings.OccursAt(s[..k], pat, i)
    {
      assert !Strings.OccursAt(s, pat, i);
      if i + |pat| <= k {
        assert s[..k][i..i + |pat|] == s[i..i + |pat|];
      }
    }
  }

  /** The normalised service type uses only `[a-z0-9-]`, never has two adjacent
      `-`, is at most 15 characters, and is the start of the filtered service type
      with every run of `-` collapsed to one. */
  lemma NormalisedServiceTypeSpec(serviceType: string)
    ensures var r := NormalisedServiceType(serviceType);
      var c := Strings.CollapseRuns(
        Strings.RemovingCharacters(Lowercased(serviceType), Strings.Only(ServiceTypeChars).Inverted()), '-');
      && (forall i :: 0 <= i < |r| ==> IsServiceTypeChar(r[i]))
      && !Strings.Contains(r, "--")
      && |r| <= MaxServiceTypeLength
      && Strings.IsPrefix(r, c)
      && |r| == (if |c| <= MaxServiceTypeLength then |c| else MaxServiceTypeLength)
  {
    var cs := Strings.Only(ServiceTypeChars).Inverted();
    var kept := Strings.RemovingCharacters(Lowercased(serviceType), cs);
    var collapsed := CollapsedServiceType(serviceType);
    var r := NormalisedServiceType(serviceType);
    assert "-" + "-" == "--";
    Strings.RemovingAdjacentCollapsesRuns(kept, '-');
    assert collapsed == Strings.CollapseRuns(kept, '-');
    forall i | 0 <= i < |r|
      ensures IsServiceTypeChar(r[i])
    {
      assert r[i] == collapsed[i];
      CollapsedKeepsChars(kept, i);
    }
    if |collapsed| > MaxServiceTypeLength {
      NoPairInPrefix(collapsed, MaxServiceTypeLength, "--");
    }
  }

  /** Every scalar of the collapsed service type was kept by the filter. */
  lemma CollapsedKeepsChars(kept: string, i: nat)
    requires forall j :: 0 <= j < |kept| ==> kept[j] in ServiceTypeChars
    requires i < |Strings.RemovingAdjacentOccurrences(kept, "-")|
    ensures IsServiceTypeChar(Strings.RemovingAdjacentOccurrences(kept, "-")[i])
  {
    var collapsed := Strings.RemovingAdjacentOccurrences(kept, "-");
    Strings.RemovingAdjacentCollapsesRuns(kept, '-');
    CollapseRunsKeeps(kept, '-', collapsed[i]);
  }

  lemma {:induction false} CollapseRunsKeeps(s: string, c: char, x: char)
    requires x in Strings.CollapseRuns(s, c)
    ensures x in s
    decreases |s|
  {
    if |s| > 1 {
      if x != s[0] {
        CollapseRunsKeeps(s[1..], c, x);
      }
    }
  }
}
