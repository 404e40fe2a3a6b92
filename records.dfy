/** The expense document and the validation `add_expense` performs on the four
    entry fields before anything is inserted. */
module Records {
  import opened Wrappers
  import opened Text
  import opened Dates
  import opened Amounts

  /** The choices the category selector offers; the first is its default. */
  const Categories: seq<string> := [
    "Food", "Transport", "Housing", "Bills", "Clothing",
    "Health", "Education", "Entertainment", "Travel", "Other"
  ]

  /** A stored expense: `{description, amount, category, date}`; the amount is in cents. */
  datatype Expense = Expense(description: string, amount: int, category: string, date: string)

  /** A document of the collection: the engine-assigned `_id` and the expense. */
  datatype Doc = Doc(id: nat, rec: Expense)

  /** The three warnings `add_expense` can show, in the order it checks for them. */
  datatype ValidationError = DescriptionRequired | AmountNotNumeric | DateNotIso

  /** Strip every field, then reject an empty description, an amount float()
      refuses and a date strptime refuses, in that order; otherwise build the
      document with the normalised date. The category is not checked. */
  function Validate(descText: string, amountText: string, categoryText: string, dateText: string)
    : (r: Result<Expense, ValidationError>)
    ensures r == Failure(DescriptionRequired) <==> AllSpace(descText)
    ensures r == Failure(AmountNotNumeric) <==>
      !AllSpace(descText) && ParseAmount(Strip(amountText)).None?
    ensures r == Failure(DateNotIso) <==>
      !AllSpace(descText) && ParseAmount(Strip(amountText)).Some? && Parse(Strip(dateText)).None?
    ensures r.Success? ==>
      && r.value.description == Strip(descText) && r.value.description != []
      && Some(r.value.amount) == ParseAmount(Strip(amountText))
      && r.value.category == Strip(categoryText)
      && IsCanonical(r.value.date)
      && Parse(r.value.date) == Parse(Strip(dateText))
  {
    var desc := Strip(descText);
    if desc == [] then Failure(DescriptionRequired)
    else
      match ParseAmount(Strip(amountText))
      case None => Failure(AmountNotNumeric)
      case Some(amount) =>
        match Normalize(Strip(dateText))
        case None => Failure(DateNotIso)
        case Some(date) =>
          NormalizeIsCanonical(Strip(dateText));
          Success(Expense(desc, amount, Strip(categoryText), date))
  }
}
