/**
 * `CreateTransactionDto`: the body of a create request and the field constraints the
 * validation layer checks on it before the row reaches the service.
 */
module CreateTransactionDto {
  import opened Wrappers
  import opened JsValues
  import opened TransactionEntity

  /** The request body as it arrives, field by field. */
  datatype CreateTransactionDto = CreateTransactionDto(
    kind: JsValue,
    amount: JsValue,
    categoryId: JsValue,
    userId: JsValue)

  /** One failed constraint, in the order of the decorators. */
  datatype ValidationError =
    | TypeNotInEnum        // 'Type must be either "income" or "expense"'
    | AmountNotNumber
    | AmountNotPositive    // 'Amount must be a positive number'
    | CategoryIdNotNumber
    | UserIdNotNumber

  /** `@IsEnum(['income', 'expense'])`: strict equality with one of the two strings. */
  predicate IsTransactionType(v: JsValue)
  {
    v == Str("income") || v == Str("expense")
  }

  /** `@IsNumber()`: a finite number. */
  predicate IsNumber(v: JsValue) { v.Num? }

  /** `@IsPositive()`: a number greater than zero. */
  predicate IsPositive(v: JsValue) { v.Num? && v.n > 0 }

  /**
   * Every constraint the body fails. `@IsOptional()` makes a `null` or `undefined`
   * `categoryId` skip its other checks; `userId` has no such exemption.
   */
  function Errors(dto: CreateTransactionDto): (errs: seq<ValidationError>)
    ensures TypeNotInEnum in errs <==> dto.kind != Str("income") && dto.kind != Str("expense")
    ensures AmountNotNumber in errs <==> !dto.amount.Num?
    ensures AmountNotPositive in errs <==> !(dto.amount.Num? && dto.amount.n > 0)
    ensures CategoryIdNotNumber in errs <==> !(dto.categoryId.Undefined? || dto.categoryId.Null? || dto.categoryId.Num?)
    ensures UserIdNotNumber in errs <==> !dto.userId.Num?
  {
    (if IsTransactionType(dto.kind) then [] else [TypeNotInEnum])
    + (if IsNumber(dto.amount) then [] else [AmountNotNumber])
    + (if IsPositive(dto.amount) then [] else [AmountNotPositive])
    + (if IsNullish(dto.categoryId) || IsNumber(dto.categoryId) then [] else [CategoryIdNotNumber])
    + (if IsNumber(dto.userId) then [] else [UserIdNotNumber])
  }

  predicate IsValid(dto: CreateTransactionDto) { Errors(dto) == [] }

  /** The body is accepted exactly when every field meets its constraint. */
  lemma ValidIff(dto: CreateTransactionDto)
    ensures IsValid(dto) <==>
      && (dto.kind == Str("income") || dto.kind == Str("expense"))
      && dto.amount.Num? && dto.amount.n > 0
      && (dto.categoryId.Undefined? || dto.categoryId.Null? || dto.categoryId.Num?)
      && dto.userId.Num?
  {
    var errs := Errors(dto);
    if errs != [] {
      assert errs[0] in errs;
    }
  }

  /** An accepted body as the row the service is asked to create (the date comes from the clock). */
  function ToNewTransaction(dto: CreateTransactionDto): (t: NewTransaction)
    requires IsValid(dto)
    ensures forall id: int, now: Date :: WellFormed(Transaction(id, t.kind, t.amount, now, t.userId, t.categoryId))
    ensures Str(t.kind) == dto.kind && Num(t.amount) == dto.amount && Num(t.userId) == dto.userId
    ensures t.categoryId.None? <==> IsNullish(dto.categoryId)
    ensures dto.categoryId.Num? ==> t.categoryId == Some(dto.categoryId.n)
    ensures t.createdAt.None?
  {
    ValidIff(dto);
    NewTransaction(
      dto.kind.s,
      dto.amount.n,
      None,
      dto.userId.n,
      if dto.categoryId.Num? then Some(dto.categoryId.n) else None)
  }
}
