/** `device-logs/lib/struct.ts`: log lines as they are accepted, and as they are stored and read. */
module DeviceLogs {
  import opened Basics

  datatype Line = Line(timestamp: int, isSystem: bool, isStdErr: bool, serviceId: Option<int>, message: string)

  datatype InternalLog = InternalLog(nanoTimestamp: int, line: Line)

  datatype OutputLog = OutputLog(createdAt: int, line: Line)
}
