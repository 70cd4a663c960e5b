/** The notification look-up tables of the admin dashboard (admin/admin.js):
    the Font Awesome icon and the background colour of a notification of a
    given type. */
module AdminNotify {

  /** The four notification types the tables know. */
  const KnownTypes: seq<string> := ["success", "error", "warning", "info"]

  const Icons: map<string, string> :=
    map["success" := "check-circle",
        "error" := "exclamation-circle",
        "warning" := "exclamation-triangle",
        "info" := "info-circle"]

  const Colors: map<string, string> :=
    map["success" := "#10b981",
        "error" := "#ef4444",
        "warning" := "#f59e0b",
        "info" := "#3b82f6"]

  /** `getNotificationIcon`: the icon of a known type, the `info` icon for
      any other. */
  function NotificationIcon(kind: string): (icon: string)
    ensures icon in Icons.Values
    ensures kind in KnownTypes ==> icon == Icons[kind]
    ensures kind !in KnownTypes ==> icon == Icons["info"]
  {
    if kind in Icons then Icons[kind]
    else assert Icons["info"] == "info-circle"; "info-circle"
  }

  /** `getNotificationColor`: the colour of a known type, the `info` colour
      for any other. */
  function NotificationColor(kind: string): (color: string)
    ensures color in Colors.Values
    ensures kind in KnownTypes ==> color == Colors[kind]
    ensures kind !in KnownTypes ==> color == Colors["info"]
  {
    if kind in Colors then Colors[kind]
    else assert Colors["info"] == "#3b82f6"; "#3b82f6"
  }

  /** The two tables cover the same four types. */
  lemma TablesCoverKnownTypes()
    ensures Icons.Keys == Colors.Keys == set k | k in KnownTypes
  {
  }

  /** Different types get different icons and different colours, so an
      unknown type is shown exactly like `info` and like nothing else. */
  lemma DistinctLooks(a: string, b: string)
    requires a in KnownTypes && b in KnownTypes && a != b
    ensures NotificationIcon(a) != NotificationIcon(b)
    ensures NotificationColor(a) != NotificationColor(b)
  {
  }
}
