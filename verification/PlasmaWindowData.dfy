/**
 The attributes of a PlasmaWindow, the signals that announce their changes, the roles of
 PlasmaWindowModel, and the three tables between them: which signal a setter emits, which role the
 model reports for a signal, and what the model returns for a role.
 */
module PlasmaWindowData {

  datatype StateFlag =
    | Active | Minimized | Maximized | Fullscreen | KeepAbove | KeepBelow | OnAllDesktops
    | DemandsAttention | Closeable | Fullscreenable | Maximizeable | Minimizeable | SkipsTaskbar
    | SkipsSwitcher | Shadeable | Shaded | Movable | Resizable | VirtualDesktopChangeable

  // The order in which stateChangedCallback runs the setters.
  function SetterOrder(): seq<StateFlag> {
    [Active, Minimized, Maximized, Fullscreen, KeepAbove, KeepBelow, OnAllDesktops,
     DemandsAttention, Closeable, Fullscreenable, Maximizeable, Minimizeable, SkipsTaskbar,
     SkipsSwitcher, Shadeable, Shaded, Movable, Resizable, VirtualDesktopChangeable]
  }

  datatype Signal =
    | TitleChanged | IconChanged | AppIdChanged | ActiveChanged | FullscreenableChanged
    | FullscreenChanged | MaximizeableChanged | MaximizedChanged | MinimizeableChanged
    | MinimizedChanged | KeepAboveChanged | KeepBelowChanged | OnAllDesktopsChanged
    | DemandsAttentionChanged | SkipTaskbarChanged | SkipSwitcherChanged | ShadeableChanged
    | ShadedChanged | MovableChanged | ResizableChanged | VirtualDesktopChangeableChanged
    | CloseableChanged | GeometryChanged | PlasmaVirtualDesktopEntered | PlasmaVirtualDesktopLeft

  // The signal each setX emits after it has changed its field.
  function SignalOfSetter(f: StateFlag): Signal {
    match f
    case Active => ActiveChanged
    case Minimized => MinimizedChanged
    case Maximized => MaximizedChanged
    case Fullscreen => FullscreenChanged
    case KeepAbove => KeepAboveChanged
    case KeepBelow => KeepBelowChanged
    case OnAllDesktops => OnAllDesktopsChanged
    case DemandsAttention => DemandsAttentionChanged
    case Closeable => CloseableChanged
    case Fullscreenable => FullscreenableChanged
    case Maximizeable => MaximizeableChanged
    case Minimizeable => MinimizeableChanged
    case SkipsTaskbar => SkipTaskbarChanged
    case SkipsSwitcher => SkipSwitcherChanged
    case Shadeable => ShadeableChanged
    case Shaded => ShadedChanged
    case Movable => MovableChanged
    case Resizable => ResizableChanged
    case VirtualDesktopChangeable => VirtualDesktopChangeableChanged
  }

  datatype Role =
    | Display | Decoration | AppId | Pid | IsActive | IsFullscreenable | IsFullscreen
    | IsMaximizable | IsMaximized | IsMinimizable | IsMinimized | IsKeepAbove | IsKeepBelow
    | IsOnAllDesktops | IsDemandingAttention | SkipTaskbar | SkipSwitcher | IsShadeable | IsShaded
    | IsMovable | IsResizable | IsVirtualDesktopChangeable | IsCloseable | Geometry
    | VirtualDesktops | Uuid

  // The role that addWindow's subscription to a signal passes to dataChanged.
  function RoleOfSignal(s: Signal): Role {
    match s
    case TitleChanged => Display
    case IconChanged => Decoration
    case AppIdChanged => AppId
    case ActiveChanged => IsActive
    case FullscreenableChanged => IsFullscreenable
    case FullscreenChanged => IsFullscreen
    case MaximizeableChanged => IsMaximizable
    case MaximizedChanged => IsMaximized
    case MinimizeableChanged => IsMinimizable
    case MinimizedChanged => IsMinimized
    case KeepAboveChanged => IsKeepAbove
    case KeepBelowChanged => IsKeepBelow
    case OnAllDesktopsChanged => IsOnAllDesktops
    case DemandsAttentionChanged => IsDemandingAttention
    case SkipTaskbarChanged => SkipTaskbar
    case SkipSwitcherChanged => SkipSwitcher
    case ShadeableChanged => IsShadeable
    case ShadedChanged => IsShaded
    case MovableChanged => IsMovable
    case ResizableChanged => IsResizable
    case VirtualDesktopChangeableChanged => IsVirtualDesktopChangeable
    case CloseableChanged => IsCloseable
    case GeometryChanged => Geometry
    case PlasmaVirtualDesktopEntered => VirtualDesktops
    case PlasmaVirtualDesktopLeft => VirtualDesktops
  }

  datatype Rect = Rect(x: int, y: int, width: int, height: int)

  // QVariant; an icon is an opaque number.
  datatype Value =
    | Invalid | Text(text: string) | Flag(flag: bool) | Icon(icon: nat) | Number(number: nat)
    | Area(area: Rect) | Texts(texts: seq<string>)

  datatype Attrs = Attrs(
    native: nat, version: nat, uuid: string, title: string, appId: string, icon: nat, pid: nat,
    flags: set<StateFlag>, desktops: seq<string>, geometry: Rect)

  // PlasmaWindow::isOnAllDesktops: from version 8 on, the desktop list decides.
  function OnEveryDesktop(a: Attrs): bool {
    if a.version < 8 then OnAllDesktops in a.flags else a.desktops == []
  }

  // PlasmaWindowModel::data for the window of a valid row.
  function Data(a: Attrs, role: Role): Value {
    match role
    case Display => Text(a.title)
    case Decoration => Icon(a.icon)
    case AppId => Text(a.appId)
    case Pid => Number(a.pid)
    case IsActive => Flag(Active in a.flags)
    case IsFullscreenable => Flag(Fullscreenable in a.flags)
    case IsFullscreen => Flag(Fullscreen in a.flags)
    case IsMaximizable => Flag(Maximizeable in a.flags)
    case IsMaximized => Flag(Maximized in a.flags)
    case IsMinimizable => Flag(Minimizeable in a.flags)
    case IsMinimized => Flag(Minimized in a.flags)
    case IsKeepAbove => Flag(KeepAbove in a.flags)
    case IsKeepBelow => Flag(KeepBelow in a.flags)
    case IsOnAllDesktops => Flag(OnEveryDesktop(a))
    case IsDemandingAttention => Flag(DemandsAttention in a.flags)
    case SkipTaskbar => Flag(SkipsTaskbar in a.flags)
    case SkipSwitcher => Flag(SkipsSwitcher in a.flags)
    case IsShadeable => Flag(Shadeable in a.flags)
    case IsShaded => Flag(Shaded in a.flags)
    case IsMovable => Flag(Movable in a.flags)
    case IsResizable => Flag(Resizable in a.flags)
    case IsVirtualDesktopChangeable => Flag(VirtualDesktopChangeable in a.flags)
    case IsCloseable => Flag(Closeable in a.flags)
    case Geometry => Area(a.geometry)
    case VirtualDesktops => Texts(a.desktops)
    case Uuid => Text(a.uuid)
  }

  function Toggle(flags: set<StateFlag>, f: StateFlag, on: bool): set<StateFlag> {
    if on then flags + {f} else flags - {f}
  }

  // What a row caches when it is first read: every role at once.
  function RowData(a: Attrs): map<Role, Value> {
    map role: Role | true :: Data(a, role)
  }

  // The flag that a role shows, if it shows one
  function FlagOfRole(role: Role): set<StateFlag> {
    match role
    case IsActive => {Active}
    case IsFullscreenable => {Fullscreenable}
    case IsFullscreen => {Fullscreen}
    case IsMaximizable => {Maximizeable}
    case IsMaximized => {Maximized}
    case IsMinimizable => {Minimizeable}
    case IsMinimized => {Minimized}
    case IsKeepAbove => {KeepAbove}
    case IsKeepBelow => {KeepBelow}
    case IsOnAllDesktops => {OnAllDesktops}
    case IsDemandingAttention => {DemandsAttention}
    case SkipTaskbar => {SkipsTaskbar}
    case SkipSwitcher => {SkipsSwitcher}
    case IsShadeable => {Shadeable}
    case IsShaded => {Shaded}
    case IsMovable => {Movable}
    case IsResizable => {Resizable}
    case IsVirtualDesktopChangeable => {VirtualDesktopChangeable}
    case IsCloseable => {Closeable}
    case _ => {}
  }

  lemma DataOfFlags(a: Attrs, flags: set<StateFlag>, role: Role)
    requires FlagOfRole(role) * flags == FlagOfRole(role) * a.flags
    ensures Data(a.(flags := flags), role) == Data(a, role)
  {
    forall f: StateFlag | f in FlagOfRole(role) ensures f in flags <==> f in a.flags {
      assert f in flags <==> f in FlagOfRole(role) * flags;
    }
  }

  lemma RoleShowsFlag(f: StateFlag, role: Role)
    requires f in FlagOfRole(role)
    ensures role == RoleOfSignal(SignalOfSetter(f))
  {
    assert FlagOfRole(role) == {f};
  }

  // The three tables fit together: a setter's change can show in no role other than the one the
  // model reports for the setter's signal.
  lemma SetterChangesOneRole(a: Attrs, f: StateFlag, on: bool, role: Role)
    requires Data(a.(flags := Toggle(a.flags, f, on)), role) != Data(a, role)
    ensures role == RoleOfSignal(SignalOfSetter(f))
  {
    hide Data, FlagOfRole, RoleOfSignal, SignalOfSetter;
    if f in FlagOfRole(role) {
      RoleShowsFlag(f, role);
    } else {
      DataOfFlags(a, Toggle(a.flags, f, on), role);
    }
  }

  // Unless the window decides by its desktop list, a real change of a flag does show there.
  lemma SetterShows(a: Attrs, f: StateFlag, on: bool)
    requires (f in a.flags) != on
    ensures Data(a.(flags := Toggle(a.flags, f, on)), RoleOfSignal(SignalOfSetter(f)))
         != Data(a, RoleOfSignal(SignalOfSetter(f)))
        <==> (f == OnAllDesktops ==> a.version < 8)
  {
  }
}
