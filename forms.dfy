/** The form library's submit gate (`handleSubmit(onSubmit)` with `required`/`pattern` rules),
    shared by the two admin forms and the contact form. */
module Forms {

  /** What pressing a button of a form leads to: the `onSubmit` callback with the values, the
      `onCancel` callback, or the inline errors of the fields that failed their rules. */
  datatype Submission<D, F> = Submitted(data: D) | Cancelled | Rejected(errors: set<F>)

  /** `handleSubmit(onSubmit)`: onSubmit runs with the values exactly when no rule fails. */
  function HandleSubmit<D, F>(values: D, errors: set<F>): (s: Submission<D, F>)
    ensures s.Submitted? <==> errors == {}
    ensures s.Submitted? ==> s.data == values
    ensures !s.Submitted? ==> s == Rejected(errors)
  {
    if errors == {} then Submitted(values) else Rejected(errors)
  }

  /** The `required: true` rule on a text field: an empty or missing value fails it. */
  predicate MissingText(missing: bool, value: string) {
    missing || value == ""
  }
}
