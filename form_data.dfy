/**
 * The submitted job form (net.sf.json.JSONObject) as a map from field names to values,
 * with the two accessors the service uses: getString and getBoolean.
 */
module FormData {
  import opened Wrappers

  /** A form field's value: a string or a boolean. */
  datatype FormValue = Text(text: string) | Flag(flag: bool)

  type Form = map<string, FormValue>

  /** Why a form access fails: the JSONException getString and getBoolean throw. */
  datatype FormError = FieldNotFound(key: string) | NotABoolean(key: string)

  /** The Java text of a boolean (Boolean.toString). */
  function BoolText(b: bool): string {
    if b then "true" else "false"
  }

  /** getString: the field's value as text; a boolean is written out; a missing field fails. */
  function GetString(form: Form, key: string): (r: Result<string, FormError>)
    ensures r.Failure? <==> key !in form
    ensures r.Failure? ==> r.error == FieldNotFound(key)
    ensures key in form && form[key].Text? ==> r == Success(form[key].text)
    ensures key in form && form[key].Flag? ==> r == Success(BoolText(form[key].flag))
  {
    if key !in form then Failure(FieldNotFound(key))
    else
      match form[key]
      case Text(t) => Success(t)
      case Flag(b) => Success(BoolText(b))
  }

  /** ASCII lower case. */
  function Lower(c: char): char {
    if 'A' <= c <= 'Z' then (c as int - 'A' as int + 'a' as int) as char else c
  }

  /** String.equalsIgnoreCase against a lower-case ASCII word. */
  predicate EqualsIgnoreCase(s: string, word: string) {
    |s| == |word| && forall i :: 0 <= i < |s| ==> Lower(s[i]) == word[i]
  }

  /**
   * getBoolean: a boolean field, or a text field that reads "true" or "false" in any case;
   * anything else (a missing field too) is not a boolean.
   */
  function GetBoolean(form: Form, key: string): (r: Result<bool, FormError>)
    ensures r.Success? <==>
      key in form && (form[key].Flag? || EqualsIgnoreCase(form[key].text, "true") || EqualsIgnoreCase(form[key].text, "false"))
    ensures r.Failure? ==> r.error == NotABoolean(key)
    ensures r == Success(true) ==> form[key] == Flag(true) || (form[key].Text? && EqualsIgnoreCase(form[key].text, "true"))
    ensures r == Success(false) ==> form[key] == Flag(false) || (form[key].Text? && EqualsIgnoreCase(form[key].text, "false"))
  {
    if key !in form then Failure(NotABoolean(key))
    else
      match form[key]
      case Flag(b) => Success(b)
      case Text(t) =>
        if EqualsIgnoreCase(t, "false") then Success(false)
        else if EqualsIgnoreCase(t, "true") then Success(true)
        else Failure(NotABoolean(key))
  }

  /** The text getString gives for a boolean field is one getBoolean reads back. */
  lemma BoolTextRoundTrip(form: Form, key: string, b: bool)
    requires key in form && form[key] == Flag(b)
    ensures GetBoolean(form[key := Text(BoolText(b))], key) == Success(b)
  {
    var t := BoolText(b);
    if b {
      assert !EqualsIgnoreCase(t, "false");
    }
  }
}
