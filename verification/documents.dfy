/** Listing documents of the food collection, as the server's handlers see them. */
module Documents {

  datatype Option<+T> = None | Some(value: T)

  /** The BSON values a listing field can hold, as far as the handlers tell them apart. */
  datatype Value =
    | Str(s: string)
    | Num(n: int)
    | Bool(b: bool)
    | Null
    | ObjectId(hex: string)
    | Date(millis: int)

  type Field = string

  /** A stored listing: a map from field name to value. */
  type Doc = map<Field, Value>

  const IdField: Field := "_id"
  const FoodName: Field := "foodName"
  const FoodQuantity: Field := "foodQuantity"
  const FoodStatus: Field := "foodStatus"
  const ExpireDate: Field := "expireDate"
  const AdditionalNotes: Field := "additionalNotes"
  const DonatorEmail: Field := "donatorEmail"
  const DonatorName: Field := "donatorName"
  const DonatorUID: Field := "donatorUID"
  const DonatorPhotoURL: Field := "donatorPhotoURL"
  const RequestDate: Field := "requestDate"
  const RequesterEmail: Field := "requesterEmail"
  const RequesterNote: Field := "requesterNote"
  /** The helper field the featured pipeline adds and then projects away. */
  const NumericQuantity: Field := "numericQuantity"

  const AvailableStatus: Value := Str("Available")
  const RequestedStatus: Value := Str("Requested")

  /** The fields a request adds and a cancel unsets. */
  const RequesterFields: set<Field> := {RequestDate, RequesterEmail, RequesterNote}

  function Get(d: Doc, f: Field): Option<Value>
  {
    if f in d then Some(d[f]) else None
  }

  predicate HasValue(d: Doc, f: Field, v: Value)
  {
    f in d && d[f] == v
  }

  predicate IsAvailable(d: Doc)
  {
    HasValue(d, FoodStatus, AvailableStatus)
  }

  /** A query-string parameter: absent (undefined) or the string Express parsed. */
  type Param = Option<string>

  /** JavaScript truthiness of a query parameter: present and not the empty string. */
  predicate Truthy(p: Param)
  {
    p.Some? && p.value != ""
  }
}
