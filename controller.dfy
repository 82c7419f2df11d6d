/**
 * UserController: the GET handlers name a view and put a user into the view model; the POST
 * handlers check their input, call the service or not, and answer with a redirect.
 */
module Controller {
  import opened Wrappers
  import opened Users
  import opened Decimal
  import opened Table
  import Validator
  import opened Service

  const CreateUserView := "create_user"
  const UserInfoView := "user_info"
  const ChangeUserLoginView := "change_user_login"
  const DeleteUserView := "delete_user"
  const UserAttribute := "user"

  const CreateFormRedirect := "redirect:/user/create"
  const ChangeLoginFormRedirect := "redirect:/user/change-login"
  const DeleteFormRedirect := "redirect:/user/delete"
  const UserInfoRedirectPrefix := "redirect:/user/get?id="
  const LoginParameter := "&login="

  /** The redirect to the info page of user id: its id parameter reads back as id. */
  function UserInfoRedirect(id: int): (url: string)
    ensures |UserInfoRedirectPrefix| < |url| && url[..|UserInfoRedirectPrefix|] == UserInfoRedirectPrefix
    ensures RedirectedId(url) == Some(id)
  {
    var url := UserInfoRedirectPrefix + IntToDecimal(id);
    var n := |UserInfoRedirectPrefix|;
    assert url[..n] == UserInfoRedirectPrefix;
    assert url[n..] == IntToDecimal(id) + [];
    ReadIntRoundTrip(id, []);
    url
  }

  /** The id query parameter read back from a redirect to the info page. */
  function RedirectedId(url: string): Option<int> {
    var n := |UserInfoRedirectPrefix|;
    if n <= |url| && url[..n] == UserInfoRedirectPrefix then ReadInt(url[n..]) else None
  }

  /** The id survives the trip into the info-page URL, whatever non-digit text follows it. */
  lemma RedirectedIdRoundTrip(id: int, rest: string)
    requires rest == [] || !IsDigit(rest[0])
    ensures RedirectedId(UserInfoRedirect(id) + rest) == Some(id)
  {
    var d := IntToDecimal(id);
    var tail := d + rest;
    var url := UserInfoRedirectPrefix + tail;
    assert UserInfoRedirect(id) + rest == url;
    assert url[..|UserInfoRedirectPrefix|] == UserInfoRedirectPrefix;
    assert url[|UserInfoRedirectPrefix|..] == tail;
    ReadIntRoundTrip(id, rest);
  }

  /** The create gate, written out inline in createUserPost: the validator's rule, to the letter. */
  function CreateGateRejects(u: User): (r: bool)
    ensures r == Validator.IsNotValid(u)
  {
    u.email.None? || |u.email.value| == 0
    || u.login.None? || |u.login.value| == 0
    || |u.email.value| > Validator.MaxEmailLength || |u.login.value| > Validator.MaxLoginLength
  }

  /** The change-login gate: like the validator's rule, but without the bound on the email's length. */
  function ChangeLoginGateRejects(u: User): (r: bool)
    ensures !r <==> && u.email.Some? && u.email.value != []
                    && u.login.Some? && 0 < |u.login.value| <= Validator.MaxLoginLength
    ensures r ==> Validator.IsNotValid(u)
  {
    u.email.None? || |u.email.value| == 0
    || u.login.None? || |u.login.value| == 0
    || |u.login.value| > Validator.MaxLoginLength
  }

  /** An email longer than the validator allows still gets through the change-login gate. */
  lemma ChangeLoginGateIgnoresEmailLength(u: User)
    requires u.email.Some? && |u.email.value| > Validator.MaxEmailLength
    requires u.login.Some? && 0 < |u.login.value| <= Validator.MaxLoginLength
    ensures !ChangeLoginGateRejects(u) && Validator.IsNotValid(u)
  {
  }

  /** createUserPost's answer: back to the form when refused, else to the new user's info page. */
  function CreateRedirect(u: User): (url: string)
    ensures url == CreateFormRedirect <==> CreateGateRejects(u)
    ensures !CreateGateRejects(u) ==> RedirectedId(url) == Some(u.id as int)
    ensures !CreateGateRejects(u) ==> url == UserInfoRedirect(u.id)
  {
    if CreateGateRejects(u) then CreateFormRedirect else UserInfoRedirect(u.id)
  }

  /** changeLoginPost's answer: back to the form when refused, else to the info page with the new login. */
  function ChangeLoginRedirect(u: User): (url: string)
    ensures url == ChangeLoginFormRedirect <==> ChangeLoginGateRejects(u)
    ensures !ChangeLoginGateRejects(u) ==> RedirectedId(url) == Some(u.id as int)
    ensures !ChangeLoginGateRejects(u) ==>
      var tail := LoginParameter + u.login.value;
      |tail| <= |url| && url[|url| - |tail|..] == tail
    ensures !ChangeLoginGateRejects(u) ==> url == UserInfoRedirect(u.id) + LoginParameter + u.login.value
  {
    if ChangeLoginGateRejects(u) then ChangeLoginFormRedirect
    else
      var tail := LoginParameter + u.login.value;
      RedirectedIdRoundTrip(u.id, tail);
      var url := UserInfoRedirect(u.id) + tail;
      assert url[|url| - |tail|..] == tail;
      url
  }

  /** Every stored row passes the validator. */
  ghost predicate AllValid(t: Rows) {
    forall k :: k in t ==> Validator.WellFormed(t[k])
  }

  /** An insert guarded by the create gate keeps every row valid. */
  lemma CreateKeepsRowsValid(t: Rows, u: User)
    requires AllValid(t) && !CreateGateRejects(u) && InsertRow(t, u).Some?
    ensures AllValid(InsertRow(t, u).value)
  {
  }

  /** A login update guarded by the change-login gate keeps every row valid: the email is not touched. */
  lemma ChangeLoginKeepsRowsValid(t: Rows, u: User)
    requires AllValid(t) && !ChangeLoginGateRejects(u)
    ensures AllValid(UpdateLoginRows(t, u.id, u.email, u.login))
  {
    var r := UpdateLoginRows(t, u.id, u.email, u.login);
    forall k | k in r
      ensures Validator.WellFormed(r[k])
    {
      assert k in t;
    }
  }

  /** The part of Spring's Model the handlers use: named attributes. */
  class ViewModel {
    var attributes: map<string, Option<User>>

    constructor ()
      ensures attributes == map[]
    {
      attributes := map[];
    }

    method AddAttribute(name: string, value: Option<User>)
      modifies this
      ensures attributes == old(attributes)[name := value]
    {
      attributes := attributes[name := value];
    }
  }

  class UserController {
    const service: UserService

    constructor (service: UserService)
      ensures this.service == service
    {
      this.service := service;
    }

    /** GET /user/create */
    method CreateUserGet(user: User, model: ViewModel) returns (view: string)
      modifies model
      ensures model.attributes == old(model.attributes)[UserAttribute := Some(user)]
      ensures view == CreateUserView
    {
      model.AddAttribute(UserAttribute, Some(user));
      view := CreateUserView;
    }

    /** POST /user/create: createUser is called exactly when the gate lets the user through. */
    method CreateUserPost(user: User, fails: bool) returns (redirectUrl: string)
      requires service.Valid()
      modifies service
      ensures service.Valid()
      ensures redirectUrl == CreateRedirect(user)
      ensures service.calls == old(service.calls) + if CreateGateRejects(user) then [] else [CreateCall(user)]
      ensures CreateGateRejects(user) ==> service.table == old(service.table)
      ensures !CreateGateRejects(user) ==>
        var r := InsertRow(old(service.table), user);
        service.table == if !fails && r.Some? then r.value else old(service.table)
      ensures AllValid(old(service.table)) ==> AllValid(service.table)
    {
      if CreateGateRejects(user) {
        redirectUrl := CreateFormRedirect;
      } else {
        service.CreateUser(user, fails);
        redirectUrl := UserInfoRedirect(user.id);
        if AllValid(old(service.table)) && !fails && InsertRow(old(service.table), user).Some? {
          CreateKeepsRowsValid(old(service.table), user);
        }
      }
    }

    /** GET /user/get: whatever getUser returned, None included, goes into the model. */
    method GetUserGet(id: Int32, fails: bool, model: ViewModel) returns (view: string)
      requires service.Valid()
      modifies service, model
      ensures service.Valid() && service.calls == old(service.calls) + [GetCall(id)]
      ensures service.table == old(service.table)
      ensures model.attributes ==
        old(model.attributes)[UserAttribute := if fails then None else SelectById(old(service.table), id)]
      ensures view == UserInfoView
    {
      var user := service.GetUser(id, fails);
      model.AddAttribute(UserAttribute, user);
      view := UserInfoView;
    }

    /** GET /user/change-login */
    method ChangeLoginGet(user: User, model: ViewModel) returns (view: string)
      modifies model
      ensures model.attributes == old(model.attributes)[UserAttribute := Some(user)]
      ensures view == ChangeUserLoginView
    {
      model.AddAttribute(UserAttribute, Some(user));
      view := ChangeUserLoginView;
    }

    /** POST /user/change-login: updateUser is called exactly when the gate lets the user through. */
    method ChangeLoginPost(user: User, fails: bool) returns (redirectUrl: string)
      requires service.Valid()
      modifies service
      ensures service.Valid()
      ensures redirectUrl == ChangeLoginRedirect(user)
      ensures service.calls == old(service.calls) +
        if ChangeLoginGateRejects(user) then [] else [UpdateCall(user.id, user.email, user.login)]
      ensures service.table ==
        if ChangeLoginGateRejects(user) || fails then old(service.table)
        else UpdateLoginRows(old(service.table), user.id, user.email, user.login)
      ensures AllValid(old(service.table)) ==> AllValid(service.table)
    {
      if ChangeLoginGateRejects(user) {
        redirectUrl := ChangeLoginFormRedirect;
      } else {
        service.UpdateUser(user.id, user.email, user.login, fails);
        redirectUrl := UserInfoRedirect(user.id) + LoginParameter + user.login.value;
        if AllValid(old(service.table)) && !fails {
          ChangeLoginKeepsRowsValid(old(service.table), user);
        }
      }
    }

    /** GET /user/delete */
    method DeleteUserGet(user: User, model: ViewModel) returns (view: string)
      modifies model
      ensures model.attributes == old(model.attributes)[UserAttribute := Some(user)]
      ensures view == DeleteUserView
    {
      model.AddAttribute(UserAttribute, Some(user));
      view := DeleteUserView;
    }

    /** POST /user/delete: deleteUser is called only for a present id; the answer is always the form. */
    method DeleteUserPost(id: Option<Int32>, fails: bool) returns (redirectUrl: string)
      requires service.Valid()
      modifies service
      ensures service.Valid()
      ensures redirectUrl == DeleteFormRedirect
      ensures service.calls == old(service.calls) + if id.None? then [] else [DeleteCall(id.value)]
      ensures service.table ==
        if id.None? || fails then old(service.table) else DeleteRow(old(service.table), id.value)
      ensures AllValid(old(service.table)) ==> AllValid(service.table)
    {
      if id.None? {
        redirectUrl := DeleteFormRedirect;
      } else {
        service.DeleteUser(id.value, fails);
        redirectUrl := DeleteFormRedirect;
      }
    }
  }
}
