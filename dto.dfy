/** The field constraints of the register and login request bodies, as the
    validation pipe checks them before a user service operation runs.
    Lengths are counted in characters. */
module Dto {
  import opened Records

  datatype RegisterDto = RegisterDto(username: string, nickname: string, password: string,
                                     email: string, sex: Option<string>)

  datatype LoginDto = LoginDto(username: string, password: string)

  /** `@IsOptional() @IsEnum(['MALE', 'FEMALE', 'SECRET'])`. */
  predicate SexAccepted(sex: Option<string>) {
    sex.None? || sex.value in {"MALE", "FEMALE", "SECRET"}
  }

  /** The enum value a store accepts for an accepted `sex` field. */
  function ParseSex(sex: Option<string>): (r: Option<Sex>)
    requires SexAccepted(sex)
    ensures r.None? <==> sex.None?
    ensures sex == Some("MALE") ==> r == Some(MALE)
    ensures sex == Some("FEMALE") ==> r == Some(FEMALE)
    ensures sex == Some("SECRET") ==> r == Some(SECRET)
  {
    match sex
    case None => None
    case Some(s) => if s == "MALE" then Some(MALE) else if s == "FEMALE" then Some(FEMALE) else Some(SECRET)
  }

  /** The messages the validator reports for a registration body, one per
      violated decorator; `isEmail` stands for the library's format check. */
  function RegisterViolations(d: RegisterDto, isEmail: string -> bool): set<string> {
    (if d.username == "" then {"用户名不能为空"} else {}) +
    (if |d.username| < 5 then {"用户名长度最少为5位"} else {}) +
    (if |d.username| > 12 then {"用户名长度最多为12位"} else {}) +
    (if d.nickname == "" then {"昵称不能为空"} else {}) +
    (if |d.nickname| < 2 then {"昵称长度最少为2位"} else {}) +
    (if |d.nickname| > 20 then {"昵称长度最多为20位"} else {}) +
    (if d.password == "" then {"密码不能为空"} else {}) +
    (if |d.password| < 6 then {"密码长度最少为6位"} else {}) +
    (if |d.password| > 30 then {"密码长度最多为30位"} else {}) +
    (if d.email == "" then {"邮箱不能为空"} else {}) +
    (if !isEmail(d.email) then {"请填写正确格式的邮箱"} else {}) +
    (if |d.email| > 64 then {"邮箱长度最多为64位"} else {}) +
    (if !SexAccepted(d.sex) then {"性别只能是 MALE,FEMALE,SECRET"} else {})
  }

  /** The register body's constraints, field by field. */
  predicate RegisterValid(d: RegisterDto, isEmail: string -> bool) {
    && 5 <= |d.username| <= 12
    && 2 <= |d.nickname| <= 20
    && 6 <= |d.password| <= 30
    && d.email != "" && isEmail(d.email) && |d.email| <= 64
    && SexAccepted(d.sex)
  }

  /** The messages the validator reports for a login body. The password's
      maximum is 30 although its message says 36. */
  function LoginViolations(d: LoginDto): set<string> {
    (if d.username == "" then {"用户名不能为空"} else {}) +
    (if |d.username| < 5 then {"用户名长度最少为5位"} else {}) +
    (if |d.username| > 12 then {"用户名长度最多为12位"} else {}) +
    (if d.password == "" then {"密码不能为空"} else {}) +
    (if |d.password| < 6 then {"密码长度最少为6位"} else {}) +
    (if |d.password| > 30 then {"密码长度最多为36位"} else {})
  }

  predicate LoginValid(d: LoginDto) {
    5 <= |d.username| <= 12 && 6 <= |d.password| <= 30
  }

  /** A register body passes validation exactly when it meets every constraint. */
  lemma RegisterAcceptedIff(d: RegisterDto, isEmail: string -> bool)
    ensures RegisterViolations(d, isEmail) == {} <==> RegisterValid(d, isEmail)
  {
    if !RegisterValid(d, isEmail) {
      var m :=
        if |d.username| < 5 then "用户名长度最少为5位"
        else if |d.username| > 12 then "用户名长度最多为12位"
        else if |d.nickname| < 2 then "昵称长度最少为2位"
        else if |d.nickname| > 20 then "昵称长度最多为20位"
        else if |d.password| < 6 then "密码长度最少为6位"
        else if |d.password| > 30 then "密码长度最多为30位"
        else if d.email == "" then "邮箱不能为空"
        else if !isEmail(d.email) then "请填写正确格式的邮箱"
        else if |d.email| > 64 then "邮箱长度最多为64位"
        else "性别只能是 MALE,FEMALE,SECRET";
      assert m in RegisterViolations(d, isEmail);
    }
  }

  /** A login body passes validation exactly when it meets every constraint. */
  lemma LoginAcceptedIff(d: LoginDto)
    ensures LoginViolations(d) == {} <==> LoginValid(d)
  {
    if !LoginValid(d) {
      var m :=
        if |d.username| < 5 then "用户名长度最少为5位"
        else if |d.username| > 12 then "用户名长度最多为12位"
        else if |d.password| < 6 then "密码长度最少为6位"
        else "密码长度最多为36位";
      assert m in LoginViolations(d);
    }
  }

  /** Whatever username and password registration accepts, login accepts too. */
  lemma RegisterAcceptedLoginAccepted(d: RegisterDto, isEmail: string -> bool)
    requires RegisterViolations(d, isEmail) == {}
    ensures LoginViolations(LoginDto(d.username, d.password)) == {}
  {
    RegisterAcceptedIff(d, isEmail);
    LoginAcceptedIff(LoginDto(d.username, d.password));
  }

  /** A 31- to 36-character password is refused at login under a message
      that names 36 as the maximum. */
  lemma LoginRefusesUpTo36(d: LoginDto)
    requires 30 < |d.password| <= 36
    ensures "密码长度最多为36位" in LoginViolations(d)
    ensures !LoginValid(d)
  {
  }
}
