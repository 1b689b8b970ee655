/** The rooms and members of the public server as objects whose fields the handlers update. */
module LiveObjects {
  import opened Collections
  import opened RoomState

  class LiveRoom {
    const id: Id
    const capacity: int
    const hostTimeout: int
    const createdAt: int
    const access: Option<Access>
    const monitoringKey: Option<string>
    var name: string
    var host: Id
    var hostNickname: string
    var hostDeadline: Option<int>
    var emptyDeadline: Option<int>
    var hybridAudio: bool
    var announcements: bool

    constructor (id: Id, r: Room)
      ensures this.id == id && View() == r
    {
      this.id, capacity, hostTimeout, createdAt := id, r.capacity, r.hostTimeout, r.createdAt;
      access, monitoringKey := r.access, r.monitoringKey;
      name, host, hostNickname := r.name, r.host, r.hostNickname;
      hostDeadline, emptyDeadline := r.hostDeadline, r.emptyDeadline;
      hybridAudio, announcements := r.hybridAudio, r.announcements;
    }

    function View(): Room
      reads this
    {
      Room(name, host, hostNickname, capacity, hostTimeout, createdAt, hostDeadline, emptyDeadline, hybridAudio,
           announcements, access, monitoringKey)
    }
  }

  class LiveMember {
    const id: Id
    const room: Id
    const device: string
    const proof: Option<Digest>
    const order: int
    var nickname: string
    var resumeToken: Digest
    var canSpeak: bool
    var connected: bool
    var deadline: Option<int>
    var isHost: bool

    constructor (id: Id, m: Member)
      ensures this.id == id && View() == m
    {
      this.id, room, device, proof, order := id, m.room, m.device, m.proof, m.order;
      nickname, resumeToken, canSpeak, connected := m.nickname, m.resumeToken, m.canSpeak, m.connected;
      deadline, isHost := m.deadline, m.isHost;
    }

    function View(): Member
      reads this
    {
      Member(room, nickname, device, proof, resumeToken, canSpeak, order, connected, deadline, isHost)
    }
  }
}
