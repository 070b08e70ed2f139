/** Failure-carrying values: the exceptions the library throws become
    `Throws` results instead of control flow. */
module Results {

  datatype Option<+T> = None | Some(value: T)

  /** The messages the modelled code throws with; `Text` spells each one. */
  datatype Message =
    | GetNoKey | GetManyKeys
    | ListNoKey
    | InsertNoKey | InsertManyKeys | InvalidReturnType
    | EntityNoKey
    | DeleteNoKey | DeleteManyKeys
    | DeleteListNoWhere | DeleteListNoKeyword
    | PagingUnsupported | PageTooSmall
    | MapperAlreadyRegistered(mapperType: string)
    | PropertyAlreadyMapped(propertyName: string)

  function Text(m: Message): string
  {
    match m
    case GetNoKey => "Get<T> only supports an entity with a [Key] or Id property"
    case GetManyKeys => "Get<T> only supports an entity with a single [Key] or Id property"
    case ListNoKey => "Entity must have at least one [Key] property"
    case InsertNoKey => "Insert<T> only supports an entity with a [Key] or Id property"
    case InsertManyKeys => "Insert<T> only supports an entity with a single [Key] or Id property"
    case InvalidReturnType => "Invalid return type"
    case EntityNoKey => "Entity must have at least one [Key] or Id property"
    case DeleteNoKey => "Delete<T> only supports an entity with a [Key] or Id property"
    case DeleteManyKeys => "Delete<T> only supports an entity with a single [Key] or Id property"
    case DeleteListNoWhere => "DeleteList<T> requires a where clause"
    case DeleteListNoKeyword => "DeleteList<T> requires a where clause and must contain the WHERE keyword"
    case PagingUnsupported => "GetListPage is not supported with the current SQL Dialect"
    case PageTooSmall => "Page must be greater than 0"
    case MapperAlreadyRegistered(name) => "mapper of type " + name + " already registered"
    case PropertyAlreadyMapped(name) => "property " + name + " already Mapped"
  }

  /** The .NET exception types the modelled code throws, with their message
      (or, for ArgumentNullException, the parameter name). */
  datatype Exception =
    | ArgumentException(message: Message)
    | ArgumentNullException(paramName: string)
    | InvalidOperationException(message: Message)
    | InvalidCastException
    | NullReferenceException
    | GeneralException(message: Message)

  /** The value a call returns, or the exception it throws. */
  datatype Result<+T> = Ok(value: T) | Throws(error: Exception)

  /** Outcome of a call that returns nothing (a `void` method). */
  datatype Outcome = Done | Fails(error: Exception)
}
