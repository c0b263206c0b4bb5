/** MongoDB object identifiers as the routes see them: the hexadecimal
    text form, lower-cased once it has been parsed. */
module ObjectIds {
  import opened Wrappers

  type ObjectId = string

  predicate IsHexDigit(c: char) {
    '0' <= c <= '9' || 'a' <= c <= 'f' || 'A' <= c <= 'F'
  }

  function LowerHex(c: char): (d: char)
    requires IsHexDigit(c)
    ensures '0' <= d <= '9' || 'a' <= d <= 'f'
    ensures 'A' <= c <= 'F' ==> d as int == c as int + 32
    ensures !('A' <= c <= 'F') ==> d == c
  {
    if 'A' <= c <= 'F' then (c as int + 32) as char else c
  }

  /** The identifiers the store hands out: 24 lower-case hex digits. */
  predicate IsCanonical(id: ObjectId) {
    |id| == 24 && forall i :: 0 <= i < |id| ==> '0' <= id[i] <= '9' || 'a' <= id[i] <= 'f'
  }

  /** `new ObjectId(text)`, and the cast mongoose applies to an `_id`
      filter: accepts 24 hex digits of either case, throws otherwise. */
  function Parse(text: string): (r: Option<ObjectId>)
    ensures r.Some? <==> |text| == 24 && forall i :: 0 <= i < |text| ==> IsHexDigit(text[i])
    ensures r.Some? ==> IsCanonical(r.value) && |r.value| == |text|
    ensures r.Some? ==> forall i :: 0 <= i < |text| ==> r.value[i] == LowerHex(text[i])
  {
    if |text| == 24 && forall i :: 0 <= i < |text| ==> IsHexDigit(text[i])
    then Some(seq(|text|, i requires 0 <= i < |text| => LowerHex(text[i])))
    else None
  }

  /** Parsing the text of a stored identifier gives that identifier back. */
  lemma ParseCanonical(id: ObjectId)
    requires IsCanonical(id)
    ensures Parse(id) == Some(id)
  {
    assert forall i :: 0 <= i < |id| ==> IsHexDigit(id[i]);
    assert Parse(id).value == id;
  }
}
