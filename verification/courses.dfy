/** The course list the form loads once when it mounts:
    `Array.isArray(data) ? data : data.results || []`, and `[]` on any
    failure of the request or of parsing its body. */
module Courses {

  /** A parsed JSON body. */
  datatype Json =
    | JNull
    | JBool(b: bool)
    | JNumber(n: int)
    | JString(s: string)
    | JArray(items: seq<Json>)
    | JObject(members: map<string, Json>)

  /** How the course request ended. */
  datatype CourseFetch =
    | RequestFailed       // `fetch` rejected
    | BodyUnparseable     // `res.json()` rejected
    | Fetched(body: Json)

  /** JavaScript truthiness of a JSON value. */
  predicate Truthy(j: Json) {
    match j
    case JNull => false
    case JBool(b) => b
    case JNumber(n) => n != 0
    case JString(s) => s != ""
    case JArray(_) => true
    case JObject(_) => true
  }

  const NoCourses: Json := JArray([])

  /** The list stored in the `courses` state. */
  function LoadCourses(f: CourseFetch): (courses: Json)
    ensures Truthy(courses)
    ensures f.Fetched? && f.body.JArray? ==> courses == f.body
    ensures !f.Fetched? || f.body.JNull? ==> courses == NoCourses
    ensures f.Fetched? && f.body.JObject? ==>
              if "results" in f.body.members && Truthy(f.body.members["results"])
              then courses == f.body.members["results"]
              else courses == NoCourses
    ensures f.Fetched? && !f.body.JArray? && !f.body.JObject? ==> courses == NoCourses
  {
    match f
    case RequestFailed => NoCourses
    case BodyUnparseable => NoCourses
    case Fetched(body) =>
      match body
      case JArray(_) => body
      // `null.results` throws inside the promise chain; the catch gives `[]`.
      case JNull => NoCourses
      case JObject(members) =>
        if "results" in members && Truthy(members["results"]) then members["results"] else NoCourses
      // `results` of a boolean, number or string is `undefined`.
      case _ => NoCourses
  }

  /** A body that is a list, or an envelope whose `results` is a list or
      absent, always yields a list, and its items come from that body. */
  lemma LoadCoursesGivesList(f: CourseFetch)
    requires f.Fetched? && f.body.JObject? && "results" in f.body.members ==>
               f.body.members["results"].JArray?
    ensures LoadCourses(f).JArray?
    ensures f.Fetched? && f.body.JArray? ==> LoadCourses(f).items == f.body.items
  {
  }

  /** Normalising a list that was already normalised changes nothing. */
  lemma LoadCoursesStable(f: CourseFetch)
    requires LoadCourses(f).JArray?
    ensures LoadCourses(Fetched(LoadCourses(f))) == LoadCourses(f)
  {
  }

  /** An envelope with one course yields that one course; a body that cannot
      be parsed yields none. */
  lemma LoadCoursesExamples()
    ensures var welding := JObject(map["id" := JNumber(1), "name" := JString("Welding")]);
            LoadCourses(Fetched(JObject(map["results" := JArray([welding])]))) == JArray([welding])
    ensures LoadCourses(BodyUnparseable) == JArray([])
  {
  }

  /** As written, an envelope whose `results` is truthy but not a list is
      stored as the course list, and rendering then calls `map` on a value
      that has none. */
  lemma LoadCoursesKeepsNonList()
    ensures !LoadCourses(Fetched(JObject(map["results" := JString("x")]))).JArray?
  {
  }

  /** The evidently intended normaliser: a list body, or an envelope's
      `results` when that is a list, and `[]` otherwise. */
  function LoadCourseList(f: CourseFetch): (courses: Json)
    ensures courses.JArray?
    ensures f.Fetched? && f.body.JArray? ==> courses == f.body
    ensures f.Fetched? && f.body.JObject? && "results" in f.body.members
            && f.body.members["results"].JArray? ==>
              courses == f.body.members["results"]
  {
    match f
    case Fetched(JArray(items)) => JArray(items)
    case Fetched(JObject(members)) =>
      if "results" in members && members["results"].JArray? then members["results"] else NoCourses
    case _ => NoCourses
  }

  /** The intended normaliser differs from the written one exactly where the
      written one stores something that is not a list. */
  lemma LoadCourseListAgrees(f: CourseFetch)
    ensures LoadCourses(f).JArray? ==> LoadCourseList(f) == LoadCourses(f)
    ensures !LoadCourses(f).JArray? ==> LoadCourseList(f) == NoCourses
  {
  }
}
