/** When a meal photo was taken: the first EXIF date field present, in a
    fixed order of preference, or the current time. Parsing the file and
    converting a date to ISO form are inputs. */
module ExifService {
  import opened Wrappers
  import opened Browser

  /** The three fields picked from the EXIF block. */
  datatype ExifFields = ExifFields(dateTimeOriginal: Option<string>, dateTime: Option<string>, createDate: Option<string>)

  /** What `exifr.parse` does: throw, or yield the picked fields (none when
      the file has no EXIF block). */
  datatype ExifParse = ParseThrows | Parsed(data: Option<ExifFields>)

  /** `DateTimeOriginal || DateTime || CreateDate`, each read through `?.`. */
  function PhotoDate(data: Option<ExifFields>): (r: Option<string>)
    ensures r.Some? ==> r.value != ""
    ensures r.None? <==> data.None? || (!Truthy(data.value.dateTimeOriginal) && !Truthy(data.value.dateTime)
                                        && !Truthy(data.value.createDate))
  {
    if data.None? then None
    else if Truthy(data.value.dateTimeOriginal) then data.value.dateTimeOriginal
    else if Truthy(data.value.dateTime) then data.value.dateTime
    else if Truthy(data.value.createDate) then data.value.createDate
    else None
  }

  /** `extractPhotoTimestamp`: `toIso` is `new Date(d).toISOString()` (`None`
      when it throws on an invalid date), `nowIso` the current time. Every
      failure ends in the current time; nothing is thrown. */
  function ExtractPhotoTimestamp(parse: ExifParse, toIso: string -> Option<string>, nowIso: string): (r: string)
    ensures parse.ParseThrows? || PhotoDate(parse.data).None? ==> r == nowIso
    ensures r == nowIso || (parse.Parsed? && PhotoDate(parse.data).Some? && toIso(PhotoDate(parse.data).value) == Some(r))
  {
    if parse.ParseThrows? then nowIso
    else
      match PhotoDate(parse.data)
      case None => nowIso
      case Some(d) => toIso(d).GetOr(nowIso)
  }

  /** The original capture time wins over the file's modification time, which
      wins over the creation time. */
  lemma FieldPrecedence(fields: ExifFields, toIso: string -> Option<string>, nowIso: string)
    ensures Truthy(fields.dateTimeOriginal) ==>
      ExtractPhotoTimestamp(Parsed(Some(fields)), toIso, nowIso) == toIso(fields.dateTimeOriginal.value).GetOr(nowIso)
    ensures !Truthy(fields.dateTimeOriginal) && Truthy(fields.dateTime) ==>
      ExtractPhotoTimestamp(Parsed(Some(fields)), toIso, nowIso) == toIso(fields.dateTime.value).GetOr(nowIso)
    ensures !Truthy(fields.dateTimeOriginal) && !Truthy(fields.dateTime) && Truthy(fields.createDate) ==>
      ExtractPhotoTimestamp(Parsed(Some(fields)), toIso, nowIso) == toIso(fields.createDate.value).GetOr(nowIso)
  {
  }

}
