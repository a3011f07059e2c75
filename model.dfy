/** The plain records the registry stores. */
module Model {
  import opened Int32

  /** A driver as the registry sees it (`adomlogistics.model.Driver`, without its
      informational distance). */
  datatype Driver = Driver(id: int32, name: string, experienceYears: int32, available: bool)

  /** A route recorded against a driver: a free-form status and minutes of estimated time. */
  datatype Route = Route(status: string, estimatedTime: int32)
}
