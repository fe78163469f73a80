/** The part of a ski-resort record (`SkiResortT`) that the home page's
    filter reads. Nested objects the filter reaches through optional
    chaining (`outline?.status?`, `yukiMagi?`) are `Option`s, so a record
    without them is a value of the type rather than a fault. */
module Resorts {
  import opened Wrappers

  datatype ResortName = ResortName(ja: string)

  /** Free-text description of the resort's operation. */
  datatype Outline = Outline(status: Option<string>)

  datatype Courses = Courses(
    vertical: int,                 // elevation drop in metres
    numberOfCourses: int,
    beginnersCoursesPercent: int)

  /** Participation in the Yuki-Magi discount programme. */
  datatype YukiMagi = YukiMagi(available: bool)

  datatype SkiResort = SkiResort(
    id: string,
    name: ResortName,
    outline: Option<Outline>,
    courses: Courses,
    yukiMagi: Option<YukiMagi>)
}
