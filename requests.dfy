/** The part of a Flask request that the route handlers read. */
module Requests {
  import opened Text

  /** A GET request, or a POST request carrying its form fields. */
  datatype Request = Get | Post(form: map<string, string>)

  /** A form field, or "" when the form lacks it. */
  function FormGet(form: map<string, string>, key: string): string {
    if key in form then form[key] else ""
  }

  /**
   * A form field as both handlers read it: stripped, then lower-cased. The
   * result is no longer than the field, has no capital and no white space at its ends.
   */
  function NormalizedField(form: map<string, string>, key: string): (r: string)
    ensures |r| <= |FormGet(form, key)|
    ensures forall k :: 0 <= k < |r| ==> !IsUpper(r[k])
    ensures r != [] ==> !IsSpace(r[0]) && !IsSpace(r[|r| - 1])
  {
    StripEnds(FormGet(form, key));
    ToLower(Strip(FormGet(form, key)))
  }
}
