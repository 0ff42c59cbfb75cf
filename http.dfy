/** The request and response vocabulary the views share. */
module Http {
  datatype Method = Get | Post

  /**
   * What a view answers: a page rendered from a template, a redirect to a
   * named URL or to a recipe's page, or one of the error statuses: 404, 403,
   * and 500 for an uncaught exception.
   */
  datatype Response =
    | Render(template: string)
    | Redirect(to: string)
    | RedirectToRecipe(pk: nat)
    | NotFound
    | Forbidden
    | ServerError

  /** Where login_required and LoginRequiredMixin send an anonymous request. */
  const LoginUrl := "login"
}
