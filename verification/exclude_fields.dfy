/**
 * `get_language_specific_fields`: the translated copies of a model's fields
 * (`<field>_<language code>`) that import/export leaves out, one per field
 * and per configured language other than the default one.
 */
module ExcludeFields {

  /** An entry of the `LANGUAGES` setting: a language code and its display name. */
  type Language = (string, string)

  /** The name of the translated copy of `field` for language `code`. */
  function Suffixed(field: string, code: string): string {
    field + "_" + code
  }

  /** The codes of the configured languages other than the default, in order. */
  function OtherCodes(defaultCode: string, languages: seq<Language>): (r: seq<string>)
    ensures forall c :: c in r <==> c != defaultCode && exists l :: l in languages && l.0 == c
    ensures |r| <= |languages|
  {
    if |languages| == 0 then []
    else
      assert forall l :: l in languages ==> l == languages[0] || l in languages[1..];
      (if languages[0].0 != defaultCode then [languages[0].0] else []) + OtherCodes(defaultCode, languages[1..])
  }

  /** The translated copies of every base field for one language. */
  function FieldsFor(baseFields: seq<string>, code: string): seq<string> {
    seq(|baseFields|, j requires 0 <= j < |baseFields| => Suffixed(baseFields[j], code))
  }

  /**
   * `get_language_specific_fields(model, base_fields)`: languages in the
   * outer loop, fields in the inner one; the default language adds nothing.
   */
  function LanguageSpecificFields(defaultCode: string, languages: seq<Language>, baseFields: seq<string>): (r: seq<string>)
    ensures |r| == |OtherCodes(defaultCode, languages)| * |baseFields|
  {
    if |languages| == 0 then []
    else
      var rest := LanguageSpecificFields(defaultCode, languages[1..], baseFields);
      if languages[0].0 != defaultCode then
        var r := FieldsFor(baseFields, languages[0].0) + rest;
        assert |r| == (1 + |OtherCodes(defaultCode, languages[1..])|) * |baseFields|;
        r
      else rest
  }

  /** The lists of `ss`, one after the other. */
  function Flatten(ss: seq<seq<string>>): (r: seq<string>)
    ensures forall x :: x in r <==> exists i :: 0 <= i < |ss| && x in ss[i]
  {
    if |ss| == 0 then []
    else
      var rest := Flatten(ss[1..]);
      assert forall i :: 0 < i < |ss| ==> ss[i] == ss[1..][i - 1];
      ss[0] + rest
  }

  /** The translated copies for each code of `codes`, code by code. */
  function FieldsPerCode(baseFields: seq<string>, codes: seq<string>): (r: seq<seq<string>>)
    ensures |r| == |codes|
    ensures forall k :: 0 <= k < |codes| ==> r[k] == FieldsFor(baseFields, codes[k])
  {
    seq(|codes|, k requires 0 <= k < |codes| => FieldsFor(baseFields, codes[k]))
  }

  /**
   * The result is, in order, every base field suffixed with the first
   * non-default code, then every base field with the second, and so on.
   */
  lemma {:induction false} LanguageSpecificFieldsByCode(defaultCode: string, languages: seq<Language>, baseFields: seq<string>)
    ensures LanguageSpecificFields(defaultCode, languages, baseFields)
         == Flatten(FieldsPerCode(baseFields, OtherCodes(defaultCode, languages)))
  {
    if |languages| > 0 {
      LanguageSpecificFieldsByCode(defaultCode, languages[1..], baseFields);
      var codes := OtherCodes(defaultCode, languages);
      var tail := OtherCodes(defaultCode, languages[1..]);
      if languages[0].0 != defaultCode {
        assert codes == [languages[0].0] + tail;
        assert FieldsPerCode(baseFields, codes)[1..] == FieldsPerCode(baseFields, tail);
      } else {
        assert codes == tail;
      }
    }
  }

  /**
   * A name is in the result exactly when it is some base field suffixed with
   * the code of some configured language other than the default.
   */
  lemma LanguageSpecificFieldsMembers(defaultCode: string, languages: seq<Language>, baseFields: seq<string>)
    ensures forall f :: f in LanguageSpecificFields(defaultCode, languages, baseFields) <==>
      exists j, l :: 0 <= j < |baseFields| && l in languages && l.0 != defaultCode && f == Suffixed(baseFields[j], l.0)
  {
    var codes := OtherCodes(defaultCode, languages);
    var per := FieldsPerCode(baseFields, codes);
    LanguageSpecificFieldsByCode(defaultCode, languages, baseFields);
    forall f
      ensures f in Flatten(per) <==>
        exists j, l :: 0 <= j < |baseFields| && l in languages && l.0 != defaultCode && f == Suffixed(baseFields[j], l.0)
    {
      if f in Flatten(per) {
        var k :| 0 <= k < |per| && f in per[k];
        var j :| 0 <= j < |baseFields| && FieldsFor(baseFields, codes[k])[j] == f;
        assert codes[k] in codes;
        var l :| l in languages && l.0 == codes[k];
        assert f == Suffixed(baseFields[j], l.0);
      }
      if exists j, l :: 0 <= j < |baseFields| && l in languages && l.0 != defaultCode && f == Suffixed(baseFields[j], l.0) {
        var j, l :| 0 <= j < |baseFields| && l in languages && l.0 != defaultCode && f == Suffixed(baseFields[j], l.0);
        assert l.0 in codes;
        var k :| 0 <= k < |codes| && codes[k] == l.0;
        assert per[k][j] == f;
      }
    }
  }

  /** No base fields, or no language but the default, gives an empty tuple. */
  lemma LanguageSpecificFieldsEmpty(defaultCode: string, languages: seq<Language>, baseFields: seq<string>)
    requires |baseFields| == 0 || forall l :: l in languages ==> l.0 == defaultCode
    ensures LanguageSpecificFields(defaultCode, languages, baseFields) == []
  {
    if |OtherCodes(defaultCode, languages)| > 0 {
      assert OtherCodes(defaultCode, languages)[0] in OtherCodes(defaultCode, languages);
    }
  }
}
