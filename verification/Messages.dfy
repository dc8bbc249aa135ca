/** Chat messages (src/domain.rs). */
module Messages {
  datatype Role = User | Assistant | System

  datatype Message = Message(role: Role, content: string)
}
