/** The user dialog (web/src/app/components/dialog-user/dialog-user.component.ts): a
    form pre-filled from the data it is opened with, and the record it closes with. */
module DialogUser {
  import opened Wrappers
  import Forms

  /** `DialogUserType`. */
  datatype DialogUserType = New | Edit

  /** The data the dialog is opened with; any field may be missing. */
  datatype DialogParams = DialogParams(
    username: Option<string>,
    channel: Option<string>,
    secret: Option<string>,
    dialogType: Option<DialogUserType>)

  /** The record `onSave` closes the dialog with. */
  datatype DialogResult = DialogResult(
    username: string,
    channel: string,
    secret: string,
    dialogType: Option<DialogUserType>,
    previousUserData: DialogParams)

  /** The dialog component: its injected data and the copy kept by the constructor. */
  datatype Dialog = Dialog(params: DialogParams, previousUserData: DialogParams)

  /** The constructor: `previousUserData` is the injected data itself. */
  function Open(params: DialogParams): Dialog {
    Dialog(params, params)
  }

  /** `createFormGroup`: the controls start with the user name, channel and secret of
      the data. */
  function CreateFormGroup(d: Dialog): Forms.Credentials {
    Forms.Credentials(d.params.username, d.params.channel, d.params.secret)
  }

  /** `onSave`: nothing while the form is invalid; otherwise the record of the form's
      values, the data's dialog type and the data the dialog was opened with. */
  function OnSave(d: Dialog, form: Forms.Credentials): (r: Option<DialogResult>)
    ensures r.Some? <==>
      && form.nickname.Some? && Forms.NicknameShape(form.nickname.value)
      && form.room.Some? && Forms.RoomShape(form.room.value)
      && form.secret.Some? && |form.secret.value| > 0
    ensures r.Some? ==>
      && Some(r.value.username) == form.nickname
      && Some(r.value.channel) == form.room
      && Some(r.value.secret) == form.secret
  {
    Forms.FormValidIff(form);
    if !Forms.FormValid(form) then None
    else
      Some(DialogResult(form.nickname.value, form.room.value, form.secret.value,
                        d.params.dialogType, d.previousUserData))
  }

  /** Whatever the user types, the record names the dialog type it was opened with and
      carries the opening data unchanged. */
  lemma SaveKeepsOpeningData(params: DialogParams, form: Forms.Credentials)
    ensures OnSave(Open(params), form).Some? ==>
      && OnSave(Open(params), form).value.dialogType == params.dialogType
      && OnSave(Open(params), form).value.previousUserData == params
  {
  }

  /** Saving the form untouched succeeds iff the opening data already have the nickname
      and channel shapes and a non-empty secret, and then returns that data. */
  lemma SaveUntouched(params: DialogParams)
    ensures var r := OnSave(Open(params), CreateFormGroup(Open(params)));
      && (r.Some? <==>
            && params.username.Some? && Forms.NicknameShape(params.username.value)
            && params.channel.Some? && Forms.RoomShape(params.channel.value)
            && params.secret.Some? && |params.secret.value| > 0)
      && (r.Some? ==>
            r.value == DialogResult(params.username.value, params.channel.value, params.secret.value,
                                    params.dialogType, params))
  {
  }
}
