/** What a controller hands back to the web framework. */
module Http {
  import opened Common
  import opened MessageModel
  import opened NotificationModel

  /** The `data` field of a JSON reply. */
  datatype Payload =
    | NoData
    | OneMessage(message: Message)
    | Messages(messages: seq<Message>)
    | Notifications(notifications: seq<Notification>)

  datatype Response =
      /** `res.status(status).json({ message, data })` */
    | Json(status: nat, message: string, data: Payload)
      /** `res.status(status).json({ error, code })` */
    | ErrorJson(status: nat, error: string, code: string)
      /** An exception thrown by a service, which the async handler passes on
          to the application's error handler. */
    | Thrown(exception: Error)
}
