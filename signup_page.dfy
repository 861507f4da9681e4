/**
 * The onboarding form: a nickname and a category are checked one after the
 * other, the first failing check names the error, and a form that passes
 * sends the profile to `PATCH /api/me`.
 */
module SignupPage {
  import opened Wrappers
  import opened JsText
  import opened MeRoute

  /** The three checks of the form, in the order they run. */
  datatype SignupError = NameRequired | NameTooShort | CategoryRequired

  function Message(e: SignupError): string {
    match e
    case NameRequired => "이름을 입력해주세요"
    case NameTooShort => "이름은 2글자 이상이어야 합니다"
    case CategoryRequired => "참가부문을 선택해주세요"
  }

  const SubmitFailed: string := "오류가 발생했습니다. 다시 시도해주세요."

  /** The validation cascade of `handleSubmit`: only the first failing check is reported. */
  function Validate(nickname: string, category: string): (e: Option<SignupError>)
    ensures e == Some(NameRequired) <==> Trim(nickname) == ""
    ensures e == Some(NameTooShort) <==> |Trim(nickname)| == 1
    ensures e == Some(CategoryRequired) <==> |Trim(nickname)| >= 2 && category == ""
    ensures e == None <==> |Trim(nickname)| >= 2 && category != ""
  {
    if Trim(nickname) == "" then Some(NameRequired)
    else if |Trim(nickname)| < 2 then Some(NameTooShort)
    else if category == "" then Some(CategoryRequired)
    else None
  }

  datatype Payload = Payload(name: string, initials: string, category: string, isOnboarded: bool)

  /** The request body: the trimmed name, its first two characters upper-cased, the category, onboarded. */
  function PayloadOf(nickname: string, category: string): (p: Payload)
    ensures p.name == Trim(nickname) && p.category == category && p.isOnboarded
    ensures |p.initials| == if |Trim(nickname)| < 2 then |Trim(nickname)| else 2
    ensures forall i :: 0 <= i < |p.initials| ==> p.initials[i] == UpperChar(Trim(nickname)[i])
  {
    var name := Trim(nickname);
    Payload(name, ToUpperCase(Prefix(name, 2)), category, true)
  }

  /** `JSON.stringify` of the payload, as the route reads it back. */
  function Body(p: Payload): map<string, Json> {
    map["name" := JStr(p.name), "initials" := JStr(p.initials), "category" := JStr(p.category), "isOnboarded" := JBool(p.isOnboarded)]
  }

  /**
   * A payload that passed the checks carries every field PATCH copies, each
   * truthy and of the column's type, so the route writes it whole.
   */
  lemma PayloadFullyCopied(nickname: string, category: string)
    requires Validate(nickname, category).None?
    ensures var body := Body(PayloadOf(nickname, category));
      body.Keys == PatchFields && forall k :: k in PatchFields ==> Truthy(body[k])
    ensures var body := Body(PayloadOf(nickname, category));
      PatchData(body) == body && TypedData(body)
  {
    var body := Body(PayloadOf(nickname, category));
    assert body.Keys == PatchFields;
    assert PatchData(body).Keys == body.Keys;
  }

  /** The form's state. */
  class SignupForm {
    var nickname: string
    var category: string
    var loading: bool
    var completed: bool
    var error: string

    /** The nickname starts as the signed-in user's name, or empty. */
    constructor(sessionName: Option<string>)
      ensures nickname == (if sessionName.Some? then sessionName.value else "")
      ensures category == "" && !loading && !completed && error == ""
    {
      nickname := if sessionName.Some? then sessionName.value else "";
      category := "";
      loading := false;
      completed := false;
      error := "";
    }

    /**
     * `handleSubmit`; `saved` is whether the request succeeded. A form that
     * fails a check sends nothing and shows that check's message; otherwise
     * the payload is sent and the form completes or shows the failure.
     */
    method HandleSubmit(saved: bool) returns (request: Option<Payload>)
      modifies this
      ensures nickname == old(nickname) && category == old(category)
      ensures Validate(nickname, category).Some? ==>
        request.None? && error == Message(Validate(nickname, category).value) &&
        loading == old(loading) && completed == old(completed)
      ensures Validate(nickname, category).None? ==>
        request == Some(PayloadOf(nickname, category)) && !loading &&
        (saved ==> completed && error == "") &&
        (!saved ==> completed == old(completed) && error == SubmitFailed)
    {
      var check := Validate(nickname, category);
      if check.Some? {
        error := Message(check.value);
        return None;
      }
      loading := true;
      error := "";
      request := Some(PayloadOf(nickname, category));
      if saved {
        completed := true;
      } else {
        error := SubmitFailed;
      }
      loading := false;
    }
  }
}
