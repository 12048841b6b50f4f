/**
 The delivered check: an item is delivered when its `Status` renders to text
 equal to "Delivered" under an ordinal, case-insensitive comparison. Case
 folding is restricted to ASCII letters.
 */
module Delivery {
  import opened OrdersModel

  const DELIVERED: string := "Delivered"

  /** The upper case of an ASCII letter; any other character is left alone. */
  function Upper(c: char): char {
    if 'a' <= c <= 'z' then (c as int - 32) as char else c
  }

  /** The string with every character passed through Upper. */
  function UpperAll(s: string): string {
    seq(|s|, i requires 0 <= i < |s| => Upper(s[i]))
  }

  /** Ordinal case-insensitive equality, one character pair at a time. */
  predicate EqualsIgnoreCase(a: string, b: string) {
    if |a| == 0 || |b| == 0 then |a| == |b|
    else Upper(a[0]) == Upper(b[0]) && EqualsIgnoreCase(a[1..], b[1..])
  }

  /** True iff the item is an object whose `Status` is present and equals
      "Delivered" ignoring case. */
  predicate Delivered(item: Item) {
    item.Entry? && item.status.Some? && EqualsIgnoreCase(item.status.value, DELIVERED)
  }

  /** The diagnostic records the delivered check writes: one when reading
      `Status` throws (absent key, or an item that is not an object). */
  function StatusLog(item: Item): seq<LogRecord> {
    if item.Entry? && item.status.Some? then [] else [StatusUnreadable]
  }

  /** The comparison holds exactly for strings of the same length whose
      characters agree pairwise once upper-cased. */
  lemma {:induction false} EqualsIgnoreCaseIff(a: string, b: string)
    ensures EqualsIgnoreCase(a, b) <==> |a| == |b| && forall i :: 0 <= i < |a| ==> Upper(a[i]) == Upper(b[i])
  {
    if |a| != 0 && |b| != 0 {
      EqualsIgnoreCaseIff(a[1..], b[1..]);
      if |a| == |b| && forall i :: 0 <= i < |a| ==> Upper(a[i]) == Upper(b[i]) {
        forall i | 0 <= i < |a| - 1 ensures Upper(a[1..][i]) == Upper(b[1..][i]) {
          assert Upper(a[i + 1]) == Upper(b[i + 1]);
        }
      }
    }
  }

  /** Case-insensitive equality is equality of the upper-cased strings. */
  lemma EqualsIgnoreCaseIsUpperEquality(a: string, b: string)
    ensures EqualsIgnoreCase(a, b) <==> UpperAll(a) == UpperAll(b)
  {
    EqualsIgnoreCaseIff(a, b);
    if UpperAll(a) == UpperAll(b) {
      assert |a| == |UpperAll(a)| == |UpperAll(b)| == |b|;
      forall i | 0 <= i < |a| ensures Upper(a[i]) == Upper(b[i]) {
        assert UpperAll(a)[i] == UpperAll(b)[i];
      }
    }
  }

  /** The delivered check against an independent definition: the upper-cased
      status is exactly "DELIVERED"; a missing status, or an item that is not an
      object, is never delivered and is the one case that writes a record. */
  lemma DeliveredIff(item: Item)
    ensures Delivered(item) <==>
      item.Entry? && item.status.Some? && UpperAll(item.status.value) == "DELIVERED"
    ensures !(item.Entry? && item.status.Some?) ==> !Delivered(item) && StatusLog(item) == [StatusUnreadable]
    ensures item.Entry? && item.status.Some? ==> StatusLog(item) == []
  {
    assert UpperAll(DELIVERED) == "DELIVERED";
    if item.Entry? && item.status.Some? {
      EqualsIgnoreCaseIsUpperEquality(item.status.value, DELIVERED);
    }
  }

  /** Changing the case of the status never changes the verdict. */
  lemma DeliveredIgnoresCase(item: Item, s: string)
    requires item.Entry? && item.status.Some?
    requires UpperAll(s) == UpperAll(item.status.value)
    ensures Delivered(item.(status := Some(s))) == Delivered(item)
  {
    DeliveredIff(item);
    DeliveredIff(item.(status := Some(s)));
  }

  /** Concrete cases: any casing of "Delivered" is delivered. */
  lemma DeliveredExamples()
    ensures Delivered(Entry(Some("Delivered"), None, None))
    ensures Delivered(Entry(Some("delivered"), None, None))
    ensures Delivered(Entry(Some("DELIVERED"), None, None))
  {
    assert Delivered(Entry(Some("Delivered"), None, None)) by {
      assert UpperAll("Delivered") == "DELIVERED";
      DeliveredIff(Entry(Some("Delivered"), None, None));
    }
    assert Delivered(Entry(Some("delivered"), None, None)) by {
      assert UpperAll("delivered") == "DELIVERED";
      DeliveredIff(Entry(Some("delivered"), None, None));
    }
    assert UpperAll("DELIVERED") == "DELIVERED";
    DeliveredIff(Entry(Some("DELIVERED"), None, None));
  }

  /** Concrete cases: another status, or a `status` key spelled in lower case
      (so `Status` is absent), is not delivered; the latter writes a record. */
  lemma UndeliveredExamples()
    ensures !Delivered(Entry(Some("Ready_to_Deliver"), None, None))
    ensures !Delivered(Entry(None, None, None))
    ensures StatusLog(Entry(None, None, None)) == [StatusUnreadable]
  {
    DeliveredIff(Entry(Some("Ready_to_Deliver"), None, None));
  }
}
