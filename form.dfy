/** The search form posted to the booking portal (createFormData, main.go:246-253). */
module Form {

  /** `url.Values`: each key holds a list of values. */
  type Values = map<string, seq<string>>

  const TokenKey: string := "FRM_CASETYPES_token"
  const StepKey: string := "step"
  const StepValue: string := "WEB_APPOINT_SEARCH_BY_CASETYPES"
  const CaseTypeKey: string := "CASETYPES[Notfalltermin UA 35]"
  const CaptchaKey: string := "frc-captcha-solution"

  /** `url.Values.Set`: the key afterwards holds exactly the one value given. */
  function Set(v: Values, key: string, value: string): Values
  {
    v[key := [value]]
  }

  /** `url.Values.Get`: the first value under the key, or "" when there is none. */
  function Get(v: Values, key: string): string
  {
    if key in v && |v[key]| > 0 then v[key][0] else ""
  }

  /** The form body: four fields, each with one value. The CAPTCHA solution field is set
      whatever the token is, the empty string included. */
  function CreateFormData(formToken: string, captchaToken: string): (r: Values)
    ensures r.Keys == {TokenKey, StepKey, CaseTypeKey, CaptchaKey}
    ensures forall k :: k in r ==> |r[k]| == 1
    ensures Get(r, TokenKey) == formToken
    ensures Get(r, StepKey) == StepValue
    ensures Get(r, CaseTypeKey) == "1"
    ensures Get(r, CaptchaKey) == captchaToken
  {
    var empty: Values := map[];
    var withToken := Set(empty, TokenKey, formToken);
    var withStep := Set(withToken, StepKey, StepValue);
    var withCaseType := Set(withStep, CaseTypeKey, "1");
    Set(withCaseType, CaptchaKey, captchaToken)
  }

  /** Distinct token pairs give distinct forms: the form carries both tokens unaltered. */
  lemma FormDataInjective(formToken: string, captchaToken: string, formToken': string, captchaToken': string)
    requires CreateFormData(formToken, captchaToken) == CreateFormData(formToken', captchaToken')
    ensures formToken == formToken' && captchaToken == captchaToken'
  {
    var r := CreateFormData(formToken, captchaToken);
    assert Get(r, TokenKey) == formToken == formToken';
    assert Get(r, CaptchaKey) == captchaToken == captchaToken';
  }
}
