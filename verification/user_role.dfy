/** The client-side role hook: which portal role the signed-in user is shown as, and the colour
    theme that goes with it. */
module UserRole {
  import opened Json
  import Roles

  datatype PortalRole = Volunteer | Caregiver | Participant

  function Name(role: PortalRole): (r: string)
    ensures Roles.IsPortalRole(r)
  {
    match role
    case Volunteer => "volunteer"
    case Caregiver => "caregiver"
    case Participant => "participant"
  }

  /** Every portal role name names exactly one role. */
  lemma NameBijective(s: string)
    ensures Roles.IsPortalRole(s) <==> exists role :: Name(role) == s
    ensures forall a, b :: Name(a) == Name(b) ==> a == b
  {
    if Roles.IsPortalRole(s) {
      assert s == "volunteer" || s == "caregiver" || s == "participant";
      if s == "volunteer" {
        assert Name(Volunteer) == s;
      } else if s == "caregiver" {
        assert Name(Caregiver) == s;
      } else {
        assert Name(Participant) == s;
      }
    }
  }

  /** `user?.publicMetadata?.role`: `undefined` when there is no user or no metadata. */
  function MetadataRole(user: JsValue): JsValue
  {
    if PropertyAccessThrows(user) then Undefined
    else
      var metadata := Member(user, "publicMetadata");
      if PropertyAccessThrows(metadata) then Undefined else Member(metadata, "role")
  }

  /** `(role || 'participant')`, then anything that is not a portal role name becomes
      `participant`. */
  function PortalRoleOf(user: JsValue): (r: PortalRole)
    ensures MetadataRole(user).Str? && Roles.IsPortalRole(MetadataRole(user).s) ==> Name(r) == MetadataRole(user).s
    ensures !(MetadataRole(user).Str? && Roles.IsPortalRole(MetadataRole(user).s)) ==> r == Participant
  {
    var role := MetadataRole(user);
    var named := if Truthy(role) then role else Str("participant");
    if named == Str("volunteer") then Volunteer
    else if named == Str("caregiver") then Caregiver
    else Participant
  }

  /** Admin and staff accounts are shown the participant theme on the client. */
  lemma GroupRolesShownAsParticipant(user: JsValue)
    requires MetadataRole(user).Str? && MetadataRole(user).s in Roles.GroupRoles
    ensures PortalRoleOf(user) == Participant
  {
  }

  /** The colours and labels of one portal role. */
  datatype Theme = Theme(primary: string, dark: string, light: string, secondary: string,
                         emoji: string, gradient: string, roleLabel: string)

  function RoleTheme(role: PortalRole): Theme
  {
    match role
    case Volunteer => Theme("#86B1A4", "#6FA08F", "#E8F3F0", "#B8D4CC", "\U{1F91D}",
                            "from-[#86B1A4] to-[#6FA08F]", "Volunteer")
    case Caregiver => Theme("#EC4899", "#DB2777", "#FCE7F3", "#F9A8D4", "\U{1F496}",
                            "from-[#EC4899] to-[#DB2777]", "Caregiver")
    case Participant => Theme("#E89D71", "#D88C61", "#FEF3EB", "#F4C4A0", "\U{1F9E1}",
                              "from-[#E89D71] to-[#D88C61]", "Participant")
  }

  /** Capitalises an ASCII lower-case first letter. */
  function Capitalize(s: string): string
  {
    if |s| > 0 && 'a' <= s[0] <= 'z' then [(s[0] as int - 32) as char] + s[1..] else s
  }

  /** Each theme's gradient runs from its primary to its dark colour. */
  lemma ThemeGradient(role: PortalRole)
    ensures RoleTheme(role).gradient == "from-[" + RoleTheme(role).primary + "] to-[" + RoleTheme(role).dark + "]"
  {
    match role
    case Volunteer => VolunteerGradient();
    case Caregiver => CaregiverGradient();
    case Participant => ParticipantGradient();
  }

  lemma VolunteerGradient()
    ensures var t := RoleTheme(Volunteer); t.gradient == "from-[" + t.primary + "] to-[" + t.dark + "]"
  {
    GradientOf("#86B1A4", "#6FA08F", "from-[#86B1A4] to-[#6FA08F]");
  }

  lemma CaregiverGradient()
    ensures var t := RoleTheme(Caregiver); t.gradient == "from-[" + t.primary + "] to-[" + t.dark + "]"
  {
    GradientOf("#EC4899", "#DB2777", "from-[#EC4899] to-[#DB2777]");
  }

  lemma ParticipantGradient()
    ensures var t := RoleTheme(Participant); t.gradient == "from-[" + t.primary + "] to-[" + t.dark + "]"
  {
    GradientOf("#E89D71", "#D88C61", "from-[#E89D71] to-[#D88C61]");
  }

  lemma GradientOf(primary: string, dark: string, gradient: string)
    requires |primary| == 7 && |dark| == 7 && |gradient| == 27
    requires forall i :: 0 <= i < 6 ==> gradient[i] == "from-["[i]
    requires forall i :: 0 <= i < 7 ==> gradient[6 + i] == primary[i]
    requires forall i :: 0 <= i < 6 ==> gradient[13 + i] == "] to-["[i]
    requires forall i :: 0 <= i < 7 ==> gradient[19 + i] == dark[i]
    requires gradient[26] == ']'
    ensures gradient == "from-[" + primary + "] to-[" + dark + "]"
  {
  }

  /** Each theme's label is the capitalised role name. */
  lemma ThemeLabel(role: PortalRole)
    ensures RoleTheme(role).roleLabel == Capitalize(Name(role))
  {
    match role
    case Volunteer => CapitalizedLabel("volunteer", "Volunteer");
    case Caregiver => CapitalizedLabel("caregiver", "Caregiver");
    case Participant => CapitalizedLabel("participant", "Participant");
  }

  lemma CapitalizedLabel(name: string, shown: string)
    requires |name| > 0 && 'a' <= name[0] <= 'z'
    requires |shown| == |name| && shown[0] == (name[0] as int - 32) as char
    requires forall i :: 1 <= i < |name| ==> shown[i] == name[i]
    ensures shown == Capitalize(name)
  {
  }

  /** Different roles have different primary colours, so the theme identifies the role. */
  lemma ThemeIdentifiesRole(a: PortalRole, b: PortalRole)
    requires RoleTheme(a).primary == RoleTheme(b).primary
    ensures a == b
  {
    var pa, pb := RoleTheme(a).primary, RoleTheme(b).primary;
    assert pa[1] == pb[1] && pa[2] == pb[2];
  }

  /** What the hook returns. */
  datatype RoleInfo = RoleInfo(role: PortalRole, isVolunteer: bool, isCaregiver: bool,
                               isParticipant: bool, theme: Theme, isLoaded: bool)

  function UseUserRole(user: JsValue, isLoaded: bool): (r: RoleInfo)
    ensures r.role == PortalRoleOf(user) && r.isLoaded == isLoaded
    ensures r.isVolunteer <==> r.role == Volunteer
    ensures r.isCaregiver <==> r.role == Caregiver
    ensures r.isParticipant <==> r.role == Participant
    ensures r.theme == RoleTheme(r.role)
  {
    var role := PortalRoleOf(user);
    RoleInfo(role, role == Volunteer, role == Caregiver, role == Participant, RoleTheme(role), isLoaded)
  }

  /** Exactly one of the three flags is set, and it agrees with the theme's label. */
  lemma ExactlyOneFlag(user: JsValue, isLoaded: bool)
    ensures var r := UseUserRole(user, isLoaded);
            (if r.isVolunteer then 1 else 0) + (if r.isCaregiver then 1 else 0) + (if r.isParticipant then 1 else 0) == 1
    ensures var r := UseUserRole(user, isLoaded);
            r.isVolunteer <==> r.theme.roleLabel == "Volunteer"
  {
  }

  /** A user whose metadata names a portal role is shown as that role; a signed-out user,
      missing metadata, an empty role and any other value are shown as a participant. */
  lemma RoleResolution(name: string)
    ensures Roles.IsPortalRole(name) ==>
              Name(PortalRoleOf(Object(map["publicMetadata" := Object(map["role" := Str(name)])]))) == name
    ensures PortalRoleOf(Null) == Participant && PortalRoleOf(Undefined) == Participant
    ensures PortalRoleOf(Object(map[])) == Participant
    ensures PortalRoleOf(Object(map["publicMetadata" := Object(map["role" := Str("")])])) == Participant
  {
  }
}
