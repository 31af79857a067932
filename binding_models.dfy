/**
 * The request bodies the controllers bind (Messages.RestServices/Models)
 * and `ModelState.IsValid` for each. A body that is absent binds as
 * null (the outer Option); a JSON property that is absent binds as null
 * (the inner Option).
 */
module BindingModels {
  import opened Wrappers
  import opened Models

  /** `ChannelBindingModel`: `Name` is `[Required]`, `[MaxLength(100)]`, `[MinLength(1)]`. */
  datatype ChannelBindingModel = ChannelBindingModel(name: Option<string>)

  /** `ChannelMessageBindingModel`: `Text` is `[Required]`. */
  datatype ChannelMessageBindingModel = ChannelMessageBindingModel(text: Option<string>)

  /** `UserMessageBindingModel`: `Text` and `Recipient` are both `[Required]`. */
  datatype UserMessageBindingModel = UserMessageBindingModel(text: Option<string>, recipient: Option<string>)

  /** `[MinLength(1)]` and `[MaxLength(100)]` let null through; `[Required]` does not. */
  predicate ChannelModelValid(data: ChannelBindingModel)
  {
    && Required(data.name)
    && (data.name.Some? ==> MinChannelNameLength <= |data.name.value| <= MaxChannelNameLength)
  }

  predicate ChannelMessageModelValid(data: ChannelMessageBindingModel)
  {
    Required(data.text)
  }

  predicate UserMessageModelValid(data: UserMessageBindingModel)
  {
    Required(data.text) && Required(data.recipient)
  }

  /** A channel body passes validation exactly when it carries a name the Channel entity accepts. */
  lemma ChannelModelValidIffValidName(data: ChannelBindingModel)
    ensures ChannelModelValid(data) <==> data.name.Some? && ValidChannelName(data.name.value)
  {
  }
}
