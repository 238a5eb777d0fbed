/** The notification record of `src/models/notification.rs`. */
module NotificationModel {
  import opened Ids
  import opened Clock

  datatype NotificationType = SomeoneSentMessage | SomeoneLikedPost | SomeoneViewedProfile

  /** The `#[default]` variant. */
  const DefaultType: NotificationType := SomeoneSentMessage

  datatype Notification = Notification(
    notification_type: NotificationType,
    user_id: Uuid,
    message: string,
    confirmed: bool,
    created_at: Instant,
    updated_at: Instant)

  /** `Notification::new`: a notification starts unconfirmed. */
  function New(notification_type: NotificationType, user_id: Uuid, message: string, now: Instant): (n: Notification)
    ensures n.notification_type == notification_type && n.user_id == user_id && n.message == message
    ensures !n.confirmed
    ensures n.created_at == now && n.updated_at == now
  {
    Notification(notification_type, user_id, message, false, now, now)
  }

  /** The three kinds, and which one is the default. */
  lemma TypesAreThree(t: NotificationType)
    ensures t == SomeoneSentMessage || t == SomeoneLikedPost || t == SomeoneViewedProfile
    ensures DefaultType.SomeoneSentMessage?
  {
  }
}
